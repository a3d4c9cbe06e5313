/**
 What a capability's artefact looks like on the host.

 Rendered lines have the shape their place needs, one region (RenderedRegion), one block member
 (RenderedMember) or a file with exactly one region (RenderedFile), precisely when no line of
 the body poses as a marker there; OrdinaryIsClean is an everyday case, PoserIsNotClean one that
 fails.  A description, however many lines it was written on, stays one comment
 (DescriptionStaysAComment).
 */
module Rendering {
  import Sequences
  import opened Results
  import opened Faults
  import opened Texts
  import opened Markers
  import opened Regions
  import opened RegionLaws
  import opened Blocks
  import opened BlockLaws

  datatype Strategy = RunPartsDirectory | CrontabBlockPerTask | CrontabSingleBlock | CronDFile
  datatype Target = UserCrontab | SystemCrontab | CronD | RunParts
  datatype Classification = Hourly | Daily | Weekly | Monthly

  datatype Deployment = Deployment(
    strategy: Strategy, target: Target, classification: Option<Classification>, user: Option<string>)

  datatype Artefact = Artefact(
    id: string, slug: string, deployment: Deployment, command: string, digest: string,
    schedule: Option<string>, description: string)

  predicate WritesAFile(s: Strategy) {
    s.RunPartsDirectory? || s.CronDFile?
  }

  function MarkFor(a: Artefact): Mark {
    Mark(a.slug, a.id, a.digest)
  }

  /** The words of a text, as splitting on any run of spaces gives them. */
  function Words(s: string): seq<string>
    decreases |s|
  {
    var rest := SkipSpace(s);
    SkipShortens(s);
    if rest == "" then [] else [Word(rest)] + Words(rest[|Word(rest)|..])
  }

  lemma SkipShortens(s: string)
    ensures |SkipSpace(s)| <= |s|
    ensures SkipSpace(s) != "" ==> 0 < |Word(SkipSpace(s))| <= |SkipSpace(s)|
  {
    if s != "" && IsSpace(s[0]) {
      SkipShortens(s[1..]);
    } else {
      WordFits(s);
    }
  }

  lemma WordFits(s: string)
    ensures |Word(s)| <= |s|
    ensures s != "" && !IsSpace(s[0]) ==> Word(s) != ""
    ensures forall c | c in Word(s) :: !IsSpace(c)
  {
  }

  function Spaced(words: seq<string>): string {
    if words == [] then ""
    else if |words| == 1 then words[0]
    else words[0] + " " + Spaced(words[1..])
  }

  function DescriptionLines(description: string): seq<string> {
    var words := Words(description);
    if words == [] then [] else ["# " + Spaced(words)]
  }

  /** The lines a string makes once it is written out and terminated. */
  function Physical(s: string): seq<string> {
    SplitLines(s + "\n").lines
  }

  predicate NamesUser(t: Target) {
    t.SystemCrontab? || t.CronD?
  }

  function CrontabEntry(a: Artefact): Result<string, Fault> {
    match a.schedule
    case None => Err(NeedsSchedule)
    case Some(schedule) =>
      if schedule == "" then Err(NeedsSchedule)
      else if !NamesUser(a.deployment.target) then Ok(schedule + " " + a.command)
      else
        var user := UserOf(a.deployment);
        Ok(schedule + " " + user + " " + a.command)
  }

  /** The description and entry lines between an artefact's markers. */
  function Body(a: Artefact): Result<seq<string>, Fault> {
    if a.deployment.strategy.RunPartsDirectory? then
      if a.schedule.Some? && a.schedule.value != "" then Err(ForbidsSchedule)
      else Ok(DescriptionLines(a.description) + [STRICT] + Physical("exec " + a.command))
    else
      match CrontabEntry(a)
      case Err(e) => Err(e)
      case Ok(entry) => Ok(DescriptionLines(a.description) + Physical(entry))
  }

  function Marked(a: Artefact, body: seq<string>): seq<string> {
    [BeginMarker(MarkFor(a))] + body + [EndMarker(a.slug)]
  }

  /** The rendered lines; as a text, each of them newline-terminated. */
  function Render(a: Artefact): Result<seq<string>, Fault> {
    match Body(a)
    case Err(e) => Err(e)
    case Ok(body) =>
      match a.deployment.strategy
      case RunPartsDirectory => Ok([SHEBANG] + Marked(a, [NOTICE] + body))
      case CronDFile => Ok(Marked(a, [NOTICE] + body))
      case CrontabSingleBlock => Ok([MemberMarker(MarkFor(a))] + body)
      case CrontabBlockPerTask => Ok(Marked(a, body))
  }

  predicate PlainLines(lines: seq<string>) {
    forall l | l in lines :: KindOf(l) == Plain
  }

  /** No line of a body poses as a marker that would be acted on where it stands. */
  predicate Unposed(strategy: Strategy, body: seq<string>) {
    match strategy
    case CrontabBlockPerTask => NoRegionMarker(body) && NoBlockEdge(body)
    case CrontabSingleBlock => NoIdentity(body) && NoRegionMarker(body) && NoBlockEdge(body)
    case _ => NoRegionMarker(body)
  }

  predicate NoIdentity(lines: seq<string>) {
    forall l | l in lines :: !KindOf(l).Member?
  }

  /** Marks that can be captured again, and no description or command line posing as a marker. */
  predicate Clean(a: Artefact) {
    && Tokens(MarkFor(a))
    && (Body(a).Ok? ==> Unposed(a.deployment.strategy, Body(a).value))
  }

  // -- a description cannot leave its comment ------------------------------------------------

  lemma {:induction false} SpacedHasNoBreak(words: seq<string>)
    requires forall w | w in words :: forall c | c in w :: !IsSpace(c)
    ensures forall c | c in Spaced(words) :: c == ' ' || !IsSpace(c)
    decreases |words|
  {
    if |words| == 1 {
      assert words[0] in words;
    } else if words != [] {
      assert words[0] in words;
      forall w | w in words[1..] ensures forall c | c in w :: !IsSpace(c) {
        assert w in words;
      }
      SpacedHasNoBreak(words[1..]);
    }
  }

  lemma {:induction false} WordsAreSolid(s: string)
    ensures forall w | w in Words(s) :: forall c | c in w :: !IsSpace(c)
    decreases |s|
  {
    var rest := SkipSpace(s);
    SkipShortens(s);
    if rest != "" {
      WordFits(rest);
      WordsAreSolid(rest[|Word(rest)|..]);
    }
  }

  /** One comment line or none, with no line break in it, whatever the description holds. */
  lemma DescriptionStaysAComment(description: string)
    ensures |DescriptionLines(description)| <= 1
    ensures forall l | l in DescriptionLines(description) :: "# " <= l && '\n' !in l && Physical(l) == [l]
  {
    var words := Words(description);
    WordsAreSolid(description);
    SpacedHasNoBreak(words);
    if words != [] {
      var l := "# " + Spaced(words);
      forall c | c in l ensures c != '\n' {
        assert c in "# " || c in Spaced(words);
      }
      assert l[..2] == "# ";
      OnePhysicalLine(l);
      assert DescriptionLines(description) == [l];
    }
  }

  /** The characters of a text that are not space. */
  function Solid(s: string): string {
    if s == "" then "" else (if IsSpace(s[0]) then "" else [s[0]]) + Solid(s[1..])
  }

  lemma {:induction false} SolidSum(a: string, b: string)
    ensures Solid(a + b) == Solid(a) + Solid(b)
  {
    hide IsSpace;
    if a == "" {
      assert a + b == b;
    } else {
      assert (a + b)[1..] == a[1..] + b;
      SolidSum(a[1..], b);
    }
  }

  lemma {:induction false} SolidWord(s: string)
    requires forall c | c in s :: !IsSpace(c)
    ensures Solid(s) == s
  {
    hide IsSpace;
    if s != "" {
      assert s[0] in s && forall c | c in s[1..] :: c in s;
      SolidWord(s[1..]);
    }
  }

  lemma {:induction false} SolidSkip(s: string)
    ensures Solid(SkipSpace(s)) == Solid(s)
  {
    hide IsSpace;
    if s != "" && IsSpace(s[0]) {
      SolidSkip(s[1..]);
    }
  }

  lemma {:induction false} WordIsPrefix(s: string)
    ensures Word(s) <= s
  {
    hide IsSpace;
    if s != "" && !IsSpace(s[0]) {
      WordIsPrefix(s[1..]);
      assert Word(s)[1..] == Word(s[1..]);
    }
  }

  /** Every character that is not space is in the words, in order. */
  lemma {:induction false} WordsKeepAll(s: string)
    ensures Solid(Spaced(Words(s))) == Solid(s)
    decreases |s|
  {
    hide IsSpace, Word, Solid;
    var rest := SkipSpace(s);
    SkipShortens(s);
    SolidSkip(s);
    assert Solid("") == "" by { SolidWord(""); }
    if rest != "" {
      var word := Word(rest);
      var more := rest[|word|..];
      WordFits(rest);
      WordIsPrefix(rest);
      assert rest == word + more;
      SolidSum(word, more);
      WordsKeepAll(more);
      var later := Words(more);
      if later == [] {
        assert Words(s) == [word];
        assert Solid(more) == "";
        assert Spaced(Words(s)) == word + "";
        SolidSum(word, "");
      } else {
        assert Words(s)[1..] == later;
        assert Spaced(Words(s)) == word + (" " + Spaced(later));
        SolidSum(word, " " + Spaced(later));
        SolidSum(" ", Spaced(later));
        BlankIsNothing();
      }
    }
  }

  lemma BlankIsNothing()
    ensures Solid(" ") == "" && Solid("# ") == "#"
  {
    assert " "[1..] == "" && "# "[1..] == " ";
  }

  /** A description keeps every character but its spaces; one of spaces only leaves no line. */
  lemma DescriptionKeepsAll(description: string)
    ensures DescriptionLines(description) == [] <==> Solid(description) == ""
    ensures forall l | l in DescriptionLines(description) :: Solid(l) == "#" + Solid(description)
  {
    hide IsSpace, Word, Solid;
    WordsKeepAll(description);
    var words := Words(description);
    BlankIsNothing();
    if words == [] {
      assert Spaced([]) == "" && Solid("") == "" by { SolidWord(""); }
    } else {
      SolidSum("# ", Spaced(words));
      WordsAreSolid(description);
      FirstIsSolid(words, description);
    }
  }

  lemma FirstIsSolid(words: seq<string>, s: string)
    requires words == Words(s) && words != []
    ensures Solid(Spaced(words)) != ""
  {
    hide IsSpace, Solid;
    SkipShortens(s);
    WordFits(SkipSpace(s));
    var first := words[0];
    SolidWord(first);
    if |words| == 1 {
      assert Spaced(words) == first;
    } else {
      assert Spaced(words) == first + (" " + Spaced(words[1..]));
      SolidSum(first, " " + Spaced(words[1..]));
    }
  }

  lemma OnePhysicalLine(l: string)
    requires '\n' !in l
    ensures Physical(l) == [l]
  {
    var s := l + "\n";
    BreakOf(l, "");
    assert l + "\n" + "" == s;
    assert FirstBreak(s) == |l|;
    assert s[..|l|] == l && s[|l| + 1..] == "";
    assert SplitLines("") == EMPTY;
  }

  // -- rendered shapes -----------------------------------------------------------------------

  lemma MarkedIsRegion(a: Artefact, body: seq<string>)
    requires Tokens(MarkFor(a))
    ensures IsRegionText(MarkFor(a), Marked(a, body)) <==> NoRegionMarker(body)
    ensures NoBlockEdge(Marked(a, body)) <==> NoBlockEdge(body)
  {
    hide KindOf, BeginMarker, EndMarker;
    BeginIsRead(MarkFor(a));
    EndIsRead(a.slug);
    var lines := Marked(a, body);
    assert lines[1..|lines| - 1] == body;
    assert forall l :: l in lines <==> l == BeginMarker(MarkFor(a)) || l in body || l == EndMarker(a.slug);
  }

  /** A crontab region is one region with the artefact's marks exactly when no line of its body is a region marker. */
  lemma RenderedRegion(a: Artefact)
    requires Tokens(MarkFor(a)) && a.deployment.strategy.CrontabBlockPerTask? && Render(a).Ok?
    ensures IsRegionText(Mark(a.slug, a.id, a.digest), Render(a).value) <==> NoRegionMarker(Body(a).value)
    ensures NoBlockEdge(Render(a).value) <==> NoBlockEdge(Body(a).value)
  {
    hide KindOf, Marked, Body, IsRegionText, NoBlockEdge, NoRegionMarker;
    MarkedIsRegion(a, Body(a).value);
  }

  /** A member is one member with the artefact's marks exactly when no line of its body is an identity or a block marker. */
  lemma RenderedMember(a: Artefact)
    requires Tokens(MarkFor(a)) && a.deployment.strategy.CrontabSingleBlock? && Render(a).Ok?
    ensures IsMemberText(Mark(a.slug, a.id, a.digest), Render(a).value) <==> NoIdentity(Body(a).value) && NoBlockEdge(Body(a).value)
    ensures NoRegionMarker(Render(a).value) <==> NoRegionMarker(Body(a).value)
  {
    hide KindOf, Body, MemberMarker, Tokens;
    MemberIsRead(MarkFor(a));
    var lines, body := Render(a).value, Body(a).value;
    assert lines[1..] == body;
    assert forall l :: l in lines <==> l == MemberMarker(MarkFor(a)) || l in body;
  }

  /** A file holds exactly one region, with the artefact's marks. */
  predicate HoldsOne(mark: Mark, lines: seq<string>) {
    var found := FindRegions(lines);
    found.Ok? && |found.value| == 1 && found.value[0].mark == mark
  }

  /** A rendered file holds just its own region exactly when no line of its body is a region marker. */
  lemma RenderedFile(a: Artefact)
    requires Tokens(MarkFor(a)) && WritesAFile(a.deployment.strategy) && Render(a).Ok?
    ensures HoldsOne(Mark(a.slug, a.id, a.digest), Render(a).value) <==> NoRegionMarker(Body(a).value)
    ensures FindRegions(Render(a).value).Ok? ==> FindRegions(Render(a).value).value != []
  {
    hide KindOf, Body, Marked, Tokens, FindRegions, IsRegionText, NoRegionMarker;
    var body := [NOTICE] + Body(a).value;
    assert Render(a).value == FileLines(a, body, a.deployment.strategy.RunPartsDirectory?);
    NoticeIsNoMarker(Body(a).value);
    FileOfRegion(a, body, a.deployment.strategy.RunPartsDirectory?);
    FileHasRegion(a, body, a.deployment.strategy.RunPartsDirectory?);
  }

  lemma NoticeIsNoMarker(body: seq<string>)
    ensures NoRegionMarker([NOTICE] + body) <==> NoRegionMarker(body)
  {
    hide KindOf;
    FixedLinesArePlain();
    assert forall l :: l in [NOTICE] + body <==> l == NOTICE || l in body;
  }

  function FileLines(a: Artefact, body: seq<string>, shebang: bool): seq<string> {
    (if shebang then [SHEBANG] else []) + Marked(a, body)
  }

  lemma FileOfRegion(a: Artefact, body: seq<string>, shebang: bool)
    requires Tokens(MarkFor(a))
    ensures NoRegionMarker(body) ==> HoldsOne(MarkFor(a), FileLines(a, body, shebang))
  {
    hide KindOf, Marked, Tokens, FindRegions, IsRegionText, NoRegionMarker;
    if NoRegionMarker(body) {
      FixedLinesArePlain();
      MarkedIsRegion(a, body);
      var region := Owned(MarkFor(a), Marked(a, body));
      assert RegionShaped(region) && RegionShaped(Loose(SHEBANG));
      var items := if shebang then [Loose(SHEBANG), region] else [region];
      FlatOfOne(region);
      WholeRegion(region);
      RegionsOfOne(MarkFor(a), Marked(a, body), if shebang then 1 else 0);
      if shebang {
        assert items[1..] == [region];
      }
      assert Flat(items) == FileLines(a, body, shebang);
      ReadsAgree(Text(Flat(items), true), items);
      assert |RegionsOf(items, 0)| == 1 && RegionsOf(items, 0)[0].mark == MarkFor(a);
      OneIsDistinct(RegionsOf(items, 0));
    }
  }

  /** A file that scans at all has a region, and with a marker in the body it has another. */
  lemma FileHasRegion(a: Artefact, body: seq<string>, shebang: bool)
    requires Tokens(MarkFor(a))
    ensures var found := FindRegions(FileLines(a, body, shebang));
            found.Ok? ==> found.value != [] && (|found.value| == 1 ==> NoRegionMarker(body))
  {
    hide KindOf, IsToken, NoRegionMarker, BeginMarker, EndMarker, ScanOpen;
    FixedLinesArePlain();
    BeginIsRead(MarkFor(a));
    EndIsRead(a.slug);
    var at := if shebang then 1 else 0;
    var lines, marked := FileLines(a, body, shebang), Marked(a, body);
    var first := [BeginMarker(MarkFor(a))];
    assert marked[1..] == body + [EndMarker(a.slug)];
    if shebang {
      assert lines[0] == SHEBANG && lines[1..] == marked;
    } else {
      assert lines == marked;
    }
    assert ScanIdle(lines, 0) == ScanIdle(marked, at);
    assert ScanIdle(marked, at) == ScanOpen(MarkFor(a), first, marked[1..], at + 1);
    OpenFindsOne(MarkFor(a), first, marked[1..], at + 1);
    LoneRegion(MarkFor(a), first, body, EndMarker(a.slug), at + 1);
  }

  lemma {:induction false} OpenFindsOne(mark: Mark, held: seq<string>, lines: seq<string>, at: nat)
    requires |held| <= at
    ensures ScanOpen(mark, held, lines, at).Ok? ==> ScanOpen(mark, held, lines, at).value != []
    decreases |lines|
  {
    hide KindOf, ScanIdle;
    if lines != [] && !KindOf(lines[0]).RegionBegin? && !KindOf(lines[0]).RegionEnd? {
      OpenFindsOne(mark, held + [lines[0]], lines[1..], at + 1);
    }
  }

  /** An end marker closes something. */
  lemma {:induction false} EndNeedsRegion(lines: seq<string>, end: string, at: nat)
    requires KindOf(end).RegionEnd?
    ensures ScanIdle(lines + [end], at).Ok? ==> ScanIdle(lines + [end], at).value != []
    decreases |lines|
  {
    hide KindOf, ScanOpen;
    if lines != [] {
      assert (lines + [end])[1..] == lines[1..] + [end];
      if KindOf(lines[0]).RegionBegin? {
        OpenFindsOne(KindOf(lines[0]).mark, [lines[0]], lines[1..] + [end], at + 1);
      } else {
        EndNeedsRegion(lines[1..], end, at + 1);
      }
    }
  }

  lemma {:induction false} LoneRegion(mark: Mark, held: seq<string>, body: seq<string>, end: string, at: nat)
    requires |held| <= at && KindOf(end).RegionEnd?
    ensures var found := ScanOpen(mark, held, body + [end], at);
            found.Ok? && |found.value| == 1 ==> NoRegionMarker(body)
    decreases |body|
  {
    hide KindOf, ScanIdle;
    if body != [] {
      var rest := body[1..] + [end];
      assert (body + [end])[0] == body[0] && (body + [end])[1..] == rest;
      if KindOf(body[0]).RegionEnd? {
        EndNeedsRegion(body[1..], end, at + 1);
      } else if !KindOf(body[0]).RegionBegin? {
        LoneRegion(mark, held + [body[0]], body[1..], end, at + 1);
      }
    }
  }

  lemma CleanRegion(a: Artefact)
    requires Clean(a) && a.deployment.strategy.CrontabBlockPerTask? && Render(a).Ok?
    ensures IsRegionText(MarkFor(a), Render(a).value) && NoBlockEdge(Render(a).value)
  {
    hide KindOf, Body, IsRegionText, NoBlockEdge, NoRegionMarker, Render, Tokens;
    BodyOfRender(a);
    RenderedRegion(a);
  }

  lemma CleanMember(a: Artefact)
    requires Clean(a) && a.deployment.strategy.CrontabSingleBlock? && Render(a).Ok?
    ensures IsMemberText(MarkFor(a), Render(a).value) && NoRegionMarker(Render(a).value)
  {
    hide KindOf, Body, IsMemberText, NoBlockEdge, NoRegionMarker, NoIdentity, Render, Tokens;
    BodyOfRender(a);
    RenderedMember(a);
  }

  lemma CleanFile(a: Artefact)
    requires Clean(a) && WritesAFile(a.deployment.strategy) && Render(a).Ok?
    ensures FindRegions(Render(a).value).Ok?
    ensures |FindRegions(Render(a).value).value| == 1
    ensures FindRegions(Render(a).value).value[0].mark == MarkFor(a)
  {
    hide KindOf, Body, NoRegionMarker, Render, Tokens, FindRegions;
    BodyOfRender(a);
    RenderedFile(a);
  }

  lemma BodyOfRender(a: Artefact)
    ensures Render(a).Ok? <==> Body(a).Ok?
  {
    hide Body, Marked;
  }

  lemma OneIsDistinct(rs: seq<Region>)
    requires |rs| <= 1
    ensures CheckDistinct(rs) == Ok(rs)
  {
  }

  lemma RenderedIsNotEmpty(a: Artefact)
    requires Render(a).Ok?
    ensures Render(a).value != []
  {
    hide KindOf, Body;
  }

  // -- what cron acts on -----------------------------------------------------------------------

  predicate IsComment(line: string) {
    line != "" && line[0] == '#'
  }

  /** The lines that are not comments. */
  function ActedOn(lines: seq<string>): seq<string> {
    if lines == [] then []
    else (if IsComment(lines[0]) then [] else [lines[0]]) + ActedOn(lines[1..])
  }

  lemma {:induction false} ActiveSum(a: seq<string>, b: seq<string>)
    ensures ActedOn(a + b) == ActedOn(a) + ActedOn(b)
  {
    hide IsComment;
    if a == [] {
      Sequences.NothingFirst(b);
    } else {
      ActiveSum(a[1..], b);
      Sequences.HeadOfSum(a, b);
      Sequences.Assoc(if IsComment(a[0]) then [] else [a[0]], ActedOn(a[1..]), ActedOn(b));
    }
  }

  lemma ActiveOne(line: string)
    ensures ActedOn([line]) == if IsComment(line) then [] else [line]
  {
    hide IsComment;
    assert [line][1..] == [];
  }

  lemma MarkersAreComments(m: Mark)
    ensures IsComment(BeginMarker(m)) && IsComment(EndMarker(m.slug)) && IsComment(MemberMarker(m))
    ensures IsComment(NOTICE) && IsComment(SHEBANG) && !IsComment(STRICT)
  {
  }

  lemma DescriptionIsInactive(description: string)
    ensures ActedOn(DescriptionLines(description)) == []
  {
    hide Words, Spaced;
    var words := Words(description);
    if words != [] {
      ActiveOne("# " + Spaced(words));
    }
  }

  lemma ActiveAround(line: string, lines: seq<string>, last: string)
    requires IsComment(line) && IsComment(last)
    ensures ActedOn([line] + lines) == ActedOn(lines) && ActedOn([line] + lines + [last]) == ActedOn(lines)
  {
    hide IsComment, ActedOn;
    ActiveOne(line);
    ActiveOne(last);
    ActiveSum([line], lines);
    ActiveSum([line] + lines, [last]);
    Sequences.NothingFirst(ActedOn(lines));
  }

  function UserOf(d: Deployment): string {
    if d.user.Some? && d.user.value != "" then d.user.value else "root"
  }

  /** Schedule, user where the target has a user field, and command; or what a run-parts script runs. */
  function Directive(a: Artefact): string {
    if a.deployment.strategy.RunPartsDirectory? then "exec " + a.command
    else (if a.schedule.Some? then a.schedule.value else "")
         + (if NamesUser(a.deployment.target) then " " + UserOf(a.deployment) else "") + " " + a.command
  }

  /** The entry, target by target: only a system crontab and a cron.d file name a user, and root where none is given. */
  lemma EntryMeans(a: Artefact)
    requires !a.deployment.strategy.RunPartsDirectory? && a.schedule.Some?
    ensures var d, schedule := a.deployment, a.schedule.value;
            match d.target
            case UserCrontab => Directive(a) == schedule + " " + a.command
            case RunParts => Directive(a) == schedule + " " + a.command
            case _ =>
              match d.user
              case None => Directive(a) == schedule + " root " + a.command
              case Some(user) =>
                Directive(a) == if user == "" then schedule + " root " + a.command else schedule + " " + user + " " + a.command
  {
    var schedule := a.schedule.value;
    assert schedule + "" == schedule;
    assert " " + "root" + " " == " root ";
    assert schedule + (" " + "root") + " " == schedule + " root ";
    Sequences.Assoc(schedule, " ", UserOf(a.deployment));
  }

  /** Rendering fails exactly for an entry without a schedule and for a run-parts script with one. */
  lemma RendersWhen(a: Artefact)
    ensures var timed := a.schedule.Some? && a.schedule.value != "";
            Render(a).Err? <==> (if a.deployment.strategy.RunPartsDirectory? then timed else !timed)
    ensures Render(a).Err? ==> Render(a).error == if a.deployment.strategy.RunPartsDirectory? then ForbidsSchedule else NeedsSchedule
  {
    hide DescriptionLines, Physical, Marked;
  }

  /**
   Of everything rendered, what cron acts on is what it acts on in the entry itself; a run-parts
   script runs its command strictly and nothing else.
   */
  lemma ActsOnItsEntry(a: Artefact)
    requires Render(a).Ok?
    ensures ActedOn(Render(a).value)
         == (if a.deployment.strategy.RunPartsDirectory? then [STRICT] else []) + ActedOn(Physical(Directive(a)))
  {
    hide Words, Spaced, Physical, IsComment, ActedOn, DescriptionLines, BeginMarker, EndMarker, MemberMarker, Directive;
    MarkersAreComments(MarkFor(a));
    var body := Body(a).value;
    ActiveBody(a);
    ActiveAround(BeginMarker(MarkFor(a)), body, EndMarker(a.slug));
    ActiveAround(NOTICE, body, NOTICE);
    ActiveAround(BeginMarker(MarkFor(a)), [NOTICE] + body, EndMarker(a.slug));
    ActiveAround(SHEBANG, Marked(a, [NOTICE] + body), NOTICE);
    ActiveAround(MemberMarker(MarkFor(a)), body, NOTICE);
  }

  lemma ActiveBody(a: Artefact)
    requires Body(a).Ok?
    ensures ActedOn(Body(a).value)
         == (if a.deployment.strategy.RunPartsDirectory? then [STRICT] else []) + ActedOn(Physical(Directive(a)))
  {
    hide Words, Spaced, Physical, DescriptionLines, IsComment, Directive;
    var ds := DescriptionLines(a.description);
    DescriptionIsInactive(a.description);
    MarkersAreComments(MarkFor(a));
    assert ActedOn([]) == [];
    Sequences.NothingFirst([STRICT]);
    Sequences.NothingFirst(ActedOn(Physical(Directive(a))));
    BodyIsDirective(a);
    var strict := if a.deployment.strategy.RunPartsDirectory? then [STRICT] else [];
    ActiveSum(ds + strict, Physical(Directive(a)));
    ActiveSum(ds, strict);
    ActiveOne(STRICT);
  }

  /** Written on one line and not as a comment, the entry is the one thing cron acts on. */
  lemma ActsOnOneEntry(a: Artefact)
    requires Render(a).Ok? && OneLine(Directive(a)) && !IsComment(Directive(a))
    ensures ActedOn(Render(a).value) == (if a.deployment.strategy.RunPartsDirectory? then [STRICT] else []) + [Directive(a)]
  {
    hide Render, Directive, Physical, ActedOn, IsComment;
    ActsOnItsEntry(a);
    OnePhysicalLine(Directive(a));
    ActiveOne(Directive(a));
  }

  // -- ordinary artefacts are clean ----------------------------------------------------------

  lemma HashlessIsPlain(line: string)
    requires line == "" || line[0] != '#'
    ensures KindOf(line) == Plain
  {
  }

  /** A description whose first word starts with arrows or is the keyword. */
  predicate OpensLikeAMarker(description: string) {
    var words := Words(description);
    words != [] && (OPENS <= words[0] || CLOSES <= words[0] || words[0] == KEYWORD)
  }

  predicate OneLine(s: string) {
    '\n' !in s
  }

  /**
   A capability whose schedule does not start a comment, whose schedule, user and command stay
   on one line, and whose description does not open like a marker renders cleanly.
   */
  lemma OrdinaryIsClean(a: Artefact)
    requires Tokens(MarkFor(a)) && !OpensLikeAMarker(a.description)
    requires OneLine(a.command)
    requires a.schedule.Some? && a.schedule.value != "" ==> a.schedule.value[0] != '#' && OneLine(a.schedule.value)
    requires a.deployment.user.Some? ==> OneLine(a.deployment.user.value)
    ensures Clean(a)
  {
    hide KindOf, Words, Spaced, Physical, Tokens, CrontabEntry, OpensLikeAMarker;
    DescriptionIsPlain(a.description);
    FixedLinesArePlain();
    if Body(a).Ok? {
      if a.deployment.strategy.RunPartsDirectory? {
        OnePhysicalLine("exec " + a.command);
        ExecIsPlain(a.command);
      } else {
        EntryIsPlain(a);
      }
      PlainIsUnposed(a.deployment.strategy, Body(a).value);
    }
  }

  lemma PlainIsUnposed(strategy: Strategy, body: seq<string>)
    requires PlainLines(body)
    ensures Unposed(strategy, body)
  {
    hide KindOf;
  }

  lemma EntryIsPlain(a: Artefact)
    requires OneLine(a.command)
    requires a.schedule.Some? && a.schedule.value != "" ==> a.schedule.value[0] != '#' && OneLine(a.schedule.value)
    requires a.deployment.user.Some? ==> OneLine(a.deployment.user.value)
    requires CrontabEntry(a).Ok?
    ensures PlainLines(Physical(CrontabEntry(a).value))
  {
    hide KindOf, Physical;
    var entry := CrontabEntry(a).value;
    assert entry[0] == a.schedule.value[0];
    OnePhysicalLine(entry);
    HashlessIsPlain(entry);
  }

  lemma DescriptionIsPlain(description: string)
    requires !OpensLikeAMarker(description)
    ensures PlainLines(DescriptionLines(description))
  {
    hide KindOf, IsSpace, AfterKeyword;
    var words := Words(description);
    if words != [] {
      var rest := SkipSpace(description);
      SkipShortens(description);
      WordFits(rest);
      var text := Spaced(words);
      assert words[0] == Word(rest) != "";
      assert words[0][0] in words[0];
      if |words| == 1 {
        assert text == words[0] + "";
        FirstWordDecides(words[0], "");
      } else {
        assert text == words[0] + (" " + Spaced(words[1..]));
        FirstWordDecides(words[0], " " + Spaced(words[1..]));
      }
      CommentIsPlain(text);
    }
  }

  /** How a text opens is decided by its first word. */
  lemma FirstWordDecides(word: string, rest: string)
    requires IsToken(word) && (rest == "" || rest[0] == ' ')
    ensures OPENS <= word + rest ==> OPENS <= word
    ensures CLOSES <= word + rest ==> CLOSES <= word
    ensures AfterKeyword(word + rest).Some? ==> word == KEYWORD
  {
    var text := word + rest;
    if rest != "" {
      assert text[|word|] == ' ';
    }
    assert forall i | 0 <= i < |word| :: text[i] == word[i] && word[i] in word;
    if AfterKeyword(text).Some? {
      assert forall i | 0 <= i < 11 :: KEYWORD[i] == text[..11][i];
      assert |word| == 11;
      assert word == text[..11];
    }
  }

  // -- descriptions and commands that pose as markers --------------------------------------------

  /** Splitting at spaces gives back the words that were put together with them. */
  lemma {:induction false} WordsOfSpaced(words: seq<string>)
    requires words != [] && forall w | w in words :: IsToken(w)
    ensures Words(Spaced(words)) == words && Words(" " + Spaced(words)) == words && StartsSolid(Spaced(words))
    decreases |words|
  {
    hide Word;
    var first, s := words[0], Spaced(words);
    assert IsToken(first) && first[0] in first;
    if |words| == 1 {
      SplitsOff(s, first, "");
      assert Words("") == [];
    } else {
      var rest := " " + Spaced(words[1..]);
      WordsOfSpaced(words[1..]);
      assert s == first + rest;
      SplitsOff(s, first, rest);
    }
  }

  lemma SplitsOff(s: string, first: string, rest: string)
    requires s == first + rest && IsToken(first) && (rest == "" || IsSpace(rest[0]))
    ensures StartsSolid(s) && Words(s) == [first] + Words(rest) && Words(" " + s) == Words(s)
  {
    hide IsSpace, Word;
    assert first[0] in first && s[0] == first[0];
    WordOf(first, rest);
    assert s[|first|..] == rest;
    assert SkipSpace(s) == s;
    assert IsSpace(' ') by { BlankIsSpace(); }
    assert (" " + s)[1..] == s;
  }

  lemma BlankIsSpace()
    ensures IsSpace(' ')
  {
  }

  /** A description that reads like the end marker of its own capability. */
  function PosingDescription(slug: string): string {
    CLOSES + " " + (KEYWORD + " " + ("task=" + slug + " <<<"))
  }

  lemma DescriptionPoses(slug: string)
    requires IsToken(slug)
    ensures DescriptionLines(PosingDescription(slug)) == [EndMarker(slug)]
  {
    hide IsSpace, Words;
    var field := "task=" + slug;
    assert IsToken(CLOSES) && IsToken(KEYWORD) && IsToken(field) by { WordsOfMarker(slug); }
    var words := [CLOSES, KEYWORD, field, CLOSES];
    WordsOfSpaced(words);
    assert Spaced([CLOSES]) == CLOSES;
    assert words[2..][1..] == [CLOSES] && words[1..][1..] == words[2..];
    assert Spaced(words[2..]) == field + " " + CLOSES;
    assert Spaced(words[1..]) == KEYWORD + " " + (field + " " + CLOSES);
    assert Spaced(words) == CLOSES + " " + (KEYWORD + " " + (field + " " + CLOSES));
    assert " <<<" == " " + CLOSES;
    Sequences.Assoc(field, " ", CLOSES);
    assert Spaced(words) == PosingDescription(slug);
    assert "# <<< " == "# " + (CLOSES + " ");
    Sequences.Assoc("# ", CLOSES + " ", KEYWORD + " " + (field + " <<<"));
  }

  lemma WordsOfMarker(slug: string)
    requires IsToken(slug)
    ensures IsToken(CLOSES) && IsToken(KEYWORD) && IsToken("task=" + slug)
  {
    forall c | c in "task=" + slug ensures !IsSpace(c) {
      assert c in "task=" || c in slug;
    }
  }

  lemma DescriptionPoserIsNotClean(a: Artefact)
    requires Tokens(MarkFor(a)) && Render(a).Ok? && a.description == PosingDescription(a.slug)
    ensures EndMarker(a.slug) in Body(a).value && !NoRegionMarker(Body(a).value) && !Clean(a)
  {
    hide KindOf, DescriptionLines, Physical, IsToken, EndMarker, Directive, PosingDescription;
    DescriptionPoses(a.slug);
    EndIsRead(a.slug);
    BodyIsDirective(a);
    assert IsRegionMarker(EndMarker(a.slug));
  }

  lemma {:induction false} LastLine(before: string, last: string)
    requires OneLine(last)
    ensures last in Physical(before + "\n" + last)
    decreases |before|
  {
    var s := before + "\n" + last + "\n";
    var i := FirstBreak(s);
    assert s[|before|] == '\n' && i <= |before|;
    if i == |before| {
      assert s[i + 1..] == last + "\n";
      OnePhysicalLine(last);
    } else {
      assert s[i + 1..] == before[i + 1..] + "\n" + last + "\n";
      LastLine(before[i + 1..], last);
    }
  }

  lemma MarkerIsOneLine(slug: string)
    requires IsToken(slug)
    ensures OneLine(EndMarker(slug))
  {
    forall c | c in EndMarker(slug) ensures c != '\n' {
      assert c in "# <<< " || c in KEYWORD || c in " " || c in "task=" || c in slug || c in " <<<";
    }
  }

  /** A command whose last line is its own capability's end marker. */
  lemma PoserIsNotClean(a: Artefact, before: string)
    requires Tokens(MarkFor(a)) && Render(a).Ok? && a.command == before + "\n" + EndMarker(a.slug)
    ensures EndMarker(a.slug) in Body(a).value && !NoRegionMarker(Body(a).value) && !Clean(a)
  {
    hide KindOf, DescriptionLines, Physical, IsToken, EndMarker, Directive;
    MarkerIsOneLine(a.slug);
    EndIsRead(a.slug);
    BodyIsDirective(a);
    var marker := EndMarker(a.slug);
    var front := Lead(a) + before;
    assert Directive(a) == front + "\n" + marker by {
      DirectiveLeads(a);
      Sequences.Assoc(Lead(a), before, "\n" + marker);
      Sequences.Assoc(before, "\n", marker);
      Sequences.Assoc(front, "\n", marker);
    }
    LastLine(front, marker);
    assert IsRegionMarker(marker);
  }

  /** What an entry says before its command. */
  function Lead(a: Artefact): string {
    if a.deployment.strategy.RunPartsDirectory? then "exec "
    else (if a.schedule.Some? then a.schedule.value else "")
         + (if NamesUser(a.deployment.target) then " " + UserOf(a.deployment) else "") + " "
  }

  lemma DirectiveLeads(a: Artefact)
    ensures Directive(a) == Lead(a) + a.command
  {
  }

  lemma BodyIsDirective(a: Artefact)
    requires Body(a).Ok?
    ensures Body(a).value
         == DescriptionLines(a.description) + (if a.deployment.strategy.RunPartsDirectory? then [STRICT] else []) + Physical(Directive(a))
  {
    hide DescriptionLines, Physical;
    if !a.deployment.strategy.RunPartsDirectory? {
      Sequences.Assoc(a.schedule.value, " ", UserOf(a.deployment));
      Sequences.NothingFirst(a.schedule.value);
      assert CrontabEntry(a).value == Directive(a);
    }
  }
}
