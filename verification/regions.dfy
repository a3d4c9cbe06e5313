/**
 Managed regions: finding, replacing and removing them.

 ScanIdle and ScanOpen are the two states of the scanner.  The independent reading of a text
 is a list of items, each a loose line or a whole region; ScanOfItems and ItemsOfScan say
 that the scanner accepts a text exactly when it is such a list, and finds just its regions.
 Replacing and removing a region then edit one item of the list.
 */
module Regions {
  import Sequences
  import opened Results
  import opened Faults
  import opened Texts
  import opened Markers

  datatype Region = Region(mark: Mark, start: int, end: int, lines: seq<string>)

  type Found = Result<seq<Region>, Fault>

  function Prepend(first: seq<Region>, rest: Found): Found {
    match rest
    case Ok(more) => Ok(first + more)
    case Err(e) => Err(e)
  }

  predicate Within(rs: seq<Region>, lo: nat, hi: nat) {
    forall i | 0 <= i < |rs| :: lo <= rs[i].start <= rs[i].end < hi
  }

  /** Scanning outside any region; `at` is the index of the next line. */
  function ScanIdle(lines: seq<string>, at: nat): (found: Found)
    ensures found.Ok? ==> Within(found.value, at, at + |lines|)
    decreases |lines|
  {
    if lines == [] then Ok([])
    else
      match KindOf(lines[0])
      case RegionBegin(mark) => ScanOpen(mark, [lines[0]], lines[1..], at + 1)
      case RegionEnd(_) => Err(EndWithoutBegin)
      case _ => ScanIdle(lines[1..], at + 1)
  }

  /** Scanning inside the region that `mark` opened, whose lines so far are `held`. */
  function ScanOpen(mark: Mark, held: seq<string>, lines: seq<string>, at: nat): (found: Found)
    requires |held| <= at
    ensures found.Ok? ==> Within(found.value, at - |held|, at + |lines|)
    decreases |lines|
  {
    if lines == [] then Err(RegionNeverEnds)
    else
      match KindOf(lines[0])
      case RegionBegin(_) => Err(RegionInsideRegion)
      case RegionEnd(slug) =>
        if slug != mark.slug then Err(MismatchedEnd)
        else Prepend([Region(mark, at - |held|, at, held + [lines[0]])], ScanIdle(lines[1..], at + 1))
      case _ => ScanOpen(mark, held + [lines[0]], lines[1..], at + 1)
  }

  predicate DistinctIds(rs: seq<Region>) {
    forall i, j | 0 <= i < j < |rs| :: rs[i].mark.id != rs[j].mark.id
  }

  function CheckDistinct(rs: seq<Region>): Found {
    if DistinctIds(rs) then Ok(rs) else Err(DuplicateTask)
  }

  function FindRegions(lines: seq<string>): (found: Found)
    ensures found.Ok? ==> Within(found.value, 0, |lines|)
  {
    match ScanIdle(lines, 0)
    case Ok(rs) => CheckDistinct(rs)
    case Err(e) => Err(e)
  }

  /** Position of the first region carrying a slug, or the length when none does. */
  function RegionIndex(rs: seq<Region>, slug: string): (i: nat)
    ensures i <= |rs|
    ensures i < |rs| ==> rs[i].mark.slug == slug
    ensures forall j | 0 <= j < i :: rs[j].mark.slug != slug
  {
    if rs == [] || rs[0].mark.slug == slug then 0 else 1 + RegionIndex(rs[1..], slug)
  }

  function ReplaceRegion(t: Text, slug: string, rendered: seq<string>): Result<Text, Fault> {
    match FindRegions(t.lines)
    case Err(e) => Err(e)
    case Ok(rs) =>
      var i := RegionIndex(rs, slug);
      if i == |rs| then Ok(Text(t.lines + rendered, true))
      else Ok(Splice(t, rs[i].start, rs[i].end + 1, rendered))
  }

  function RemoveRegion(t: Text, slug: string): Result<Text, Fault> {
    match FindRegions(t.lines)
    case Err(e) => Err(e)
    case Ok(rs) =>
      var i := RegionIndex(rs, slug);
      if i == |rs| then Ok(t) else Ok(Splice(t, rs[i].start, rs[i].end + 1, []))
  }

  // -- the loops ---------------------------------------------------------------------------

  /** The scan as a single pass over the lines. */
  method FindManagedRegions(lines: seq<string>) returns (found: Found)
    ensures found == FindRegions(lines)
  {
    var regions: seq<Region> := [];
    var openAt: Option<nat> := None;
    var opening := Mark("", "", "");
    assert lines[0..] == lines;
    assert Prepend([], ScanIdle(lines, 0)) == ScanIdle(lines, 0) by { PrependNothing(ScanIdle(lines, 0)); }
    for index := 0 to |lines|
      invariant openAt.Some? ==> openAt.value < index
      invariant openAt.None? ==> ScanIdle(lines, 0) == Prepend(regions, ScanIdle(lines[index..], index))
      invariant openAt.Some? ==>
        ScanIdle(lines, 0)
        == Prepend(regions, ScanOpen(opening, lines[openAt.value..index], lines[index..], index))
    {
      var line := lines[index];
      assert lines[index..][0] == line && lines[index..][1..] == lines[index + 1..];
      match KindOf(line) {
        case RegionBegin(mark) =>
          if openAt.Some? {
            return Err(RegionInsideRegion);
          }
          openAt, opening := Some(index), mark;
          assert lines[index..index + 1] == [line];
        case RegionEnd(slug) =>
          if openAt.None? {
            return Err(EndWithoutBegin);
          }
          if slug != opening.slug {
            return Err(MismatchedEnd);
          }
          var region := Region(opening, openAt.value, index, lines[openAt.value..index + 1]);
          assert lines[openAt.value..index + 1] == lines[openAt.value..index] + [line];
          PrependTwice(regions, [region], ScanIdle(lines[index + 1..], index + 1));
          regions := regions + [region];
          openAt := None;
        case _ =>
          if openAt.Some? {
            assert lines[openAt.value..index + 1] == lines[openAt.value..index] + [line];
          }
      }
    }
    if openAt.Some? {
      return Err(RegionNeverEnds);
    }
    assert regions + [] == regions;
    found := AssertUnique(regions);
  }

  lemma PrependTwice(a: seq<Region>, b: seq<Region>, rest: Found)
    ensures Prepend(a, Prepend(b, rest)) == Prepend(a + b, rest)
  {
    if rest.Ok? {
      assert a + (b + rest.value) == a + b + rest.value;
    }
  }

  lemma PrependNothing(rest: Found)
    ensures Prepend([], rest) == rest
  {
    if rest.Ok? {
      assert [] + rest.value == rest.value;
    }
  }

  method AssertUnique(rs: seq<Region>) returns (found: Found)
    ensures found == CheckDistinct(rs)
  {
    var seen: map<string, int> := map[];
    for i := 0 to |rs|
      invariant DistinctIds(rs[..i])
      invariant forall id :: id in seen <==> exists j | 0 <= j < i :: rs[j].mark.id == id
    {
      if rs[i].mark.id in seen {
        return Err(DuplicateTask);
      }
      seen := seen[rs[i].mark.id := rs[i].start];
    }
    assert rs[..|rs|] == rs;
    return Ok(rs);
  }

  // -- texts as lists of items -------------------------------------------------------------

  /** A loose line, a whole managed region, or (for the shared block) a whole block. */
  datatype Item =
    | Loose(line: string)
    | Owned(mark: Mark, lines: seq<string>)
    | Block(lines: seq<string>)

  function LinesOf(item: Item): seq<string> {
    match item
    case Loose(line) => [line]
    case Owned(_, lines) => lines
    case Block(lines) => lines
  }

  function Flat(items: seq<Item>): seq<string> {
    if items == [] then [] else LinesOf(items[0]) + Flat(items[1..])
  }

  predicate NoRegionMarker(lines: seq<string>) {
    forall l | l in lines :: !IsRegionMarker(l)
  }

  /** The lines of one region: its two markers around lines that are not region markers. */
  predicate IsRegionText(mark: Mark, lines: seq<string>) {
    && |lines| >= 2
    && KindOf(lines[0]) == RegionBegin(mark)
    && KindOf(lines[|lines| - 1]) == RegionEnd(mark.slug)
    && NoRegionMarker(lines[1..|lines| - 1])
  }

  predicate RegionShaped(item: Item) {
    match item
    case Loose(line) => !IsRegionMarker(line)
    case Owned(mark, lines) => IsRegionText(mark, lines)
    case Block(lines) => lines != [] && NoRegionMarker(lines)
  }

  predicate RegionWise(items: seq<Item>) {
    forall i | i in items :: RegionShaped(i)
  }

  function RegionsOf(items: seq<Item>, at: nat): seq<Region> {
    if items == [] then []
    else
      var rest := RegionsOf(items[1..], at + |LinesOf(items[0])|);
      if items[0].Owned? && items[0].lines != [] then
        [Region(items[0].mark, at, at + |items[0].lines| - 1, items[0].lines)] + rest
      else rest
  }

  lemma {:induction false} FlatSum(a: seq<Item>, b: seq<Item>)
    ensures Flat(a + b) == Flat(a) + Flat(b)
  {
    if a == [] {
      Sequences.NothingFirst(b);
    } else {
      FlatSum(a[1..], b);
      Sequences.HeadOfSum(a, b);
      Sequences.Assoc(LinesOf(a[0]), Flat(a[1..]), Flat(b));
    }
  }

  lemma {:induction false} RegionsSum(a: seq<Item>, b: seq<Item>, at: nat)
    ensures RegionsOf(a + b, at) == RegionsOf(a, at) + RegionsOf(b, at + |Flat(a)|)
    decreases |a|
  {
    if a == [] {
      Sequences.NothingFirst(b);
    } else {
      RegionsSum(a[1..], b, at + |LinesOf(a[0])|);
      Sequences.HeadOfSum(a, b);
    }
  }

  /** Lines that are not region markers do not move an idle scanner. */
  lemma {:induction false} ScanSkips(lines: seq<string>, rest: seq<string>, at: nat)
    requires NoRegionMarker(lines)
    ensures ScanIdle(lines + rest, at) == ScanIdle(rest, at + |lines|)
    decreases |lines|
  {
    hide KindOf;
    if lines == [] {
      assert lines + rest == rest;
    } else {
      assert (lines + rest)[1..] == lines[1..] + rest;
      assert !IsRegionMarker(lines[0]);
      ScanSkips(lines[1..], rest, at + 1);
    }
  }

  /** An open scanner collects such lines and closes at the matching end. */
  lemma {:induction false} ScanCollects(mark: Mark, held: seq<string>, body: seq<string>, end: string, rest: seq<string>, at: nat)
    requires |held| <= at
    requires NoRegionMarker(body) && KindOf(end) == RegionEnd(mark.slug)
    ensures ScanOpen(mark, held, body + [end] + rest, at)
         == Prepend([Region(mark, at - |held|, at + |body|, held + body + [end])],
                    ScanIdle(rest, at + |body| + 1))
    decreases |body|
  {
    hide KindOf;
    var lines := body + [end] + rest;
    if body == [] {
      assert lines[1..] == rest;
      assert held + body == held;
    } else {
      assert !IsRegionMarker(body[0]);
      assert lines[1..] == body[1..] + [end] + rest;
      ScanCollects(mark, held + [body[0]], body[1..], end, rest, at + 1);
      assert held + [body[0]] + body[1..] == held + body;
    }
  }

  /** Scanning a list of items finds its regions, wherever the list stands. */
  lemma {:induction false} ScanOfItems(items: seq<Item>, rest: seq<string>, at: nat)
    requires RegionWise(items)
    ensures ScanIdle(Flat(items) + rest, at) == Prepend(RegionsOf(items, at), ScanIdle(rest, at + |Flat(items)|))
    decreases |items|
  {
    hide KindOf, ScanIdle, RegionShaped;
    if items == [] {
      Sequences.NothingFirst(rest);
      PrependNothing(ScanIdle(rest, at));
    } else {
      var first := items[0];
      assert RegionShaped(first) && RegionWise(items[1..]);
      var more := Flat(items[1..]) + rest;
      var next := at + |LinesOf(first)|;
      Sequences.Assoc(LinesOf(first), Flat(items[1..]), rest);
      ScanOfItems(items[1..], rest, next);
      ScanOfItem(first, more, at);
      if first.Owned? {
        WholeRegion(first);
        PrependTwice([Region(first.mark, at, next - 1, first.lines)], RegionsOf(items[1..], next), ScanIdle(rest, at + |Flat(items)|));
      }
    }
  }

  lemma WholeRegion(item: Item)
    requires RegionShaped(item)
    ensures LinesOf(item) != []
  {
    hide KindOf;
  }

  lemma ScanOfItem(item: Item, more: seq<string>, at: nat)
    requires RegionShaped(item)
    ensures var next := at + |LinesOf(item)|;
            ScanIdle(LinesOf(item) + more, at)
            == if item.Owned? then Prepend([Region(item.mark, at, next - 1, item.lines)], ScanIdle(more, next)) else ScanIdle(more, next)
  {
    hide KindOf;
    match item {
      case Owned(mark, lines) =>
        var body, end := lines[1..|lines| - 1], lines[|lines| - 1];
        assert lines == [lines[0]] + body + [end];
        assert (lines + more)[1..] == body + [end] + more;
        ScanCollects(mark, [lines[0]], body, end, more, at + 1);
      case _ =>
        ScanSkips(LinesOf(item), more, at);
    }
  }

  lemma ItemFirst(item: Item, rest: seq<Item>, at: nat)
    requires RegionShaped(item) && RegionWise(rest)
    ensures RegionWise([item] + rest)
    ensures Flat([item] + rest) == LinesOf(item) + Flat(rest)
    ensures RegionsOf([item] + rest, at)
         == (if item.Owned? then [Region(item.mark, at, at + |item.lines| - 1, item.lines)] else [])
            + RegionsOf(rest, at + |LinesOf(item)|)
  {
    hide KindOf;
    assert ([item] + rest)[1..] == rest;
  }

  /** Whatever the scanner accepts is a list of items with just the regions it found. */
  lemma {:induction false} ItemsOfScan(lines: seq<string>, at: nat) returns (items: seq<Item>)
    requires ScanIdle(lines, at).Ok?
    ensures RegionWise(items) && Flat(items) == lines
    ensures forall i | i in items :: !i.Block?
    ensures RegionsOf(items, at) == ScanIdle(lines, at).value
    decreases |lines|
  {
    hide KindOf, Flat, RegionsOf, RegionWise;
    if lines == [] {
      items := [];
      NoItems(at);
    } else if KindOf(lines[0]).RegionBegin? {
      items := ItemsOfOpen(KindOf(lines[0]).mark, [lines[0]], lines[1..], at + 1);
    } else {
      var rest := ItemsOfScan(lines[1..], at + 1);
      assert RegionShaped(Loose(lines[0]));
      ItemFirst(Loose(lines[0]), rest, at);
      assert lines == [lines[0]] + lines[1..];
      items := [Loose(lines[0])] + rest;
    }
  }

  lemma NoItems(at: nat)
    ensures RegionWise([]) && Flat([]) == [] && RegionsOf([], at) == []
  {
  }

  lemma {:induction false} ItemsOfOpen(mark: Mark, held: seq<string>, lines: seq<string>, at: nat) returns (items: seq<Item>)
    requires held != [] && |held| <= at
    requires KindOf(held[0]) == RegionBegin(mark) && NoRegionMarker(held[1..])
    requires ScanOpen(mark, held, lines, at).Ok?
    ensures RegionWise(items) && Flat(items) == held + lines
    ensures forall i | i in items :: !i.Block?
    ensures RegionsOf(items, at - |held|) == ScanOpen(mark, held, lines, at).value
    decreases |lines|
  {
    hide KindOf, Flat, RegionsOf, RegionWise;
    var more := held + [lines[0]];
    if KindOf(lines[0]).RegionEnd? {
      var rest := ItemsOfScan(lines[1..], at + 1);
      assert more[1..|more| - 1] == held[1..];
      ItemFirst(Owned(mark, more), rest, at - |held|);
      items := [Owned(mark, more)] + rest;
      assert more + lines[1..] == held + lines;
    } else {
      assert more[1..] == held[1..] + [lines[0]];
      items := ItemsOfOpen(mark, more, lines[1..], at + 1);
      assert more + lines[1..] == held + lines;
    }
  }

  /** What stops the scanner: an end with nothing open, or a begin followed by no end, another begin or somebody else's end. */
  ghost predicate Breaks(rest: seq<string>, f: Fault) {
    && rest != []
    && if KindOf(rest[0]).RegionEnd? then f == EndWithoutBegin
       else KindOf(rest[0]).RegionBegin? && exists j | 1 <= j <= |rest| :: StopsAt(rest, j, f)
  }

  predicate StopsAt(rest: seq<string>, j: int, f: Fault)
    requires 1 <= j <= |rest| && KindOf(rest[0]).RegionBegin?
  {
    && NoRegionMarker(rest[1..j])
    && if j == |rest| then f == RegionNeverEnds
       else if KindOf(rest[j]).RegionBegin? then f == RegionInsideRegion
       else KindOf(rest[j]).RegionEnd? && KindOf(rest[j]).slug != KindOf(rest[0]).mark.slug && f == MismatchedEnd
  }

  lemma {:induction false} OpenStops(mark: Mark, held: seq<string>, lines: seq<string>, at: nat, j: nat)
    requires |held| <= at && j <= |lines| && NoRegionMarker(lines[..j])
    ensures j == |lines| ==> ScanOpen(mark, held, lines, at) == Err(RegionNeverEnds)
    ensures j < |lines| && KindOf(lines[j]).RegionBegin? ==> ScanOpen(mark, held, lines, at) == Err(RegionInsideRegion)
    ensures j < |lines| && KindOf(lines[j]).RegionEnd? && KindOf(lines[j]).slug != mark.slug ==>
              ScanOpen(mark, held, lines, at) == Err(MismatchedEnd)
    decreases |lines|
  {
    hide KindOf, ScanIdle;
    if j > 0 {
      assert lines[..j][0] == lines[0] && lines[..j][1..] == lines[1..][..j - 1];
      assert lines[0] in lines[..j];
      OpenStops(mark, held + [lines[0]], lines[1..], at + 1, j - 1);
    }
  }

  lemma BreaksStop(rest: seq<string>, f: Fault, at: nat)
    requires Breaks(rest, f)
    ensures ScanIdle(rest, at) == Err(f)
  {
    hide KindOf, ScanOpen;
    if KindOf(rest[0]).RegionBegin? {
      var j :| 1 <= j <= |rest| && StopsAt(rest, j, f);
      assert rest[1..][..j - 1] == rest[1..j];
      OpenStops(KindOf(rest[0]).mark, [rest[0]], rest[1..], at + 1, j - 1);
    }
  }

  /** Where the scanner stopped: whole items, and then what stopped it. */
  lemma {:induction false} StoppedScan(lines: seq<string>, at: nat) returns (items: seq<Item>, rest: seq<string>)
    requires ScanIdle(lines, at).Err?
    ensures RegionWise(items) && Flat(items) + rest == lines && Breaks(rest, ScanIdle(lines, at).error)
    decreases |lines|
  {
    hide KindOf, Flat, RegionsOf, RegionWise;
    if KindOf(lines[0]).RegionEnd? {
      NoItems(at);
      items, rest := [], lines;
    } else if KindOf(lines[0]).RegionBegin? {
      items, rest := StoppedOpen(KindOf(lines[0]).mark, [lines[0]], lines[1..], at + 1);
      assert [lines[0]] + lines[1..] == lines;
    } else {
      items, rest := StoppedScan(lines[1..], at + 1);
      assert RegionShaped(Loose(lines[0]));
      ItemFirst(Loose(lines[0]), items, at);
      assert lines == [lines[0]] + lines[1..];
      Sequences.Assoc([lines[0]], Flat(items), rest);
      items := [Loose(lines[0])] + items;
    }
  }

  lemma {:induction false} StoppedOpen(mark: Mark, held: seq<string>, lines: seq<string>, at: nat)
    returns (items: seq<Item>, rest: seq<string>)
    requires held != [] && |held| <= at
    requires KindOf(held[0]) == RegionBegin(mark) && NoRegionMarker(held[1..])
    requires ScanOpen(mark, held, lines, at).Err?
    ensures RegionWise(items) && Flat(items) + rest == held + lines && Breaks(rest, ScanOpen(mark, held, lines, at).error)
    decreases |lines|
  {
    hide KindOf, Flat, RegionsOf, RegionWise;
    var all := held + lines;
    if lines == [] || KindOf(lines[0]).RegionBegin? || (KindOf(lines[0]).RegionEnd? && KindOf(lines[0]).slug != mark.slug) {
      NoItems(at);
      items, rest := [], all;
      assert all[1..|held|] == held[1..];
      assert StopsAt(all, |held|, ScanOpen(mark, held, lines, at).error);
    } else {
      var more := held + [lines[0]];
      assert more + lines[1..] == all;
      if KindOf(lines[0]).RegionEnd? {
        items, rest := StoppedScan(lines[1..], at + 1);
        assert more[1..|more| - 1] == held[1..];
        ItemFirst(Owned(mark, more), items, at);
        Sequences.Assoc(more, Flat(items), rest);
        items := [Owned(mark, more)] + items;
      } else {
        assert more[1..] == held[1..] + [lines[0]];
        items, rest := StoppedOpen(mark, more, lines[1..], at + 1);
      }
    }
  }

  /** The scanner fails exactly where, after whole items, something stops it, and with that fault. */
  lemma ScanFailsWhen(lines: seq<string>, f: Fault)
    ensures ScanIdle(lines, 0) == Err(f) <==>
              exists items, rest :: RegionWise(items) && Flat(items) + rest == lines && Breaks(rest, f)
  {
    hide KindOf, ScanIdle, Flat, RegionsOf, Breaks, RegionWise;
    forall items, rest | RegionWise(items) && Flat(items) + rest == lines && Breaks(rest, f) ensures ScanIdle(lines, 0) == Err(f) {
      ScanOfItems(items, rest, 0);
      BreaksStop(rest, f, |Flat(items)|);
    }
    if ScanIdle(lines, 0) == Err(f) {
      var items, rest := StoppedScan(lines, 0);
    }
  }

  /** The scanner accepts a text exactly when it is a list of items. */
  lemma ScannerIsGrammar(lines: seq<string>)
    ensures ScanIdle(lines, 0).Ok? <==> exists items :: RegionWise(items) && Flat(items) == lines
    ensures forall items | RegionWise(items) && Flat(items) == lines :: ScanIdle(lines, 0) == Ok(RegionsOf(items, 0))
  {
    forall items | RegionWise(items) && Flat(items) == lines
      ensures ScanIdle(lines, 0) == Ok(RegionsOf(items, 0))
    {
      ScanOfItems(items, [], 0);
      assert Flat(items) + [] == lines;
      assert RegionsOf(items, 0) + [] == RegionsOf(items, 0);
    }
    if ScanIdle(lines, 0).Ok? {
      var items := ItemsOfScan(lines, 0);
    }
  }
}
