/**
 What replacing and removing a region does, for every text the scanner accepts: the region
 list afterwards, independence of different slugs, idempotence and undoing.
 */
module RegionLaws {
  import Sequences
  import opened Results
  import opened Faults
  import opened Texts
  import opened Markers
  import opened Regions

  predicate Carries(item: Item, slug: string) {
    item.Owned? && item.mark.slug == slug
  }

  /** Position of the first item carrying a slug, or the length when none does. */
  function IndexOf(items: seq<Item>, slug: string): (k: nat)
    ensures k <= |items|
    ensures k < |items| ==> Carries(items[k], slug)
    ensures forall j | 0 <= j < k :: !Carries(items[j], slug)
  {
    if items == [] || Carries(items[0], slug) then 0 else 1 + IndexOf(items[1..], slug)
  }

  /** The item list with the first region of the slug replaced, or the region added at the end. */
  function Put(items: seq<Item>, mark: Mark, lines: seq<string>): seq<Item> {
    var k := IndexOf(items, mark.slug);
    if k < |items| then items[k := Owned(mark, lines)] else items + [Owned(mark, lines)]
  }

  function Drop(items: seq<Item>, slug: string): seq<Item> {
    var k := IndexOf(items, slug);
    if k < |items| then items[..k] + items[k + 1..] else items
  }

  lemma FlatAround(items: seq<Item>, k: nat)
    requires k < |items|
    ensures Flat(items) == Flat(items[..k]) + LinesOf(items[k]) + Flat(items[k + 1..])
    ensures |LinesOf(items[k])| <= |Flat(items)|
  {
    hide Flat;
    var one, rest := [items[k]], items[k + 1..];
    Sequences.SplitAt(items, k);
    FlatSum(items[..k], one + rest);
    FlatSum(one, rest);
    FlatOfOne(items[k]);
    Sequences.Assoc(Flat(items[..k]), LinesOf(items[k]), Flat(rest));
  }

  lemma FlatOfOne(item: Item)
    ensures Flat([item]) == LinesOf(item)
  {
  }

  lemma RegionsOfOne(mark: Mark, lines: seq<string>, at: nat)
    requires lines != []
    ensures RegionsOf([Owned(mark, lines)], at) == [Region(mark, at, at + |lines| - 1, lines)]
  {
  }

  lemma FlatIsEmpty(items: seq<Item>)
    requires RegionWise(items)
    ensures Flat(items) == [] <==> items == []
  {
    if items != [] {
      assert RegionShaped(items[0]);
    }
  }

  function RegionAt(items: seq<Item>, k: nat, at: nat): Region
    requires k < |items| && items[k].Owned?
  {
    var start := at + |Flat(items[..k])|;
    Region(items[k].mark, start, start + |items[k].lines| - 1, items[k].lines)
  }

  lemma {:induction false} NoneCarries(items: seq<Item>, slug: string, at: nat)
    requires forall i | i in items :: !Carries(i, slug)
    ensures forall r | r in RegionsOf(items, at) :: r.mark.slug != slug
    decreases |items|
  {
    if items != [] {
      assert !Carries(items[0], slug);
      NoneCarries(items[1..], slug, at + |LinesOf(items[0])|);
    }
  }

  lemma RegionsAround(items: seq<Item>, k: nat)
    requires k < |items| && items[k].Owned? && items[k].lines != []
    ensures RegionsOf(items, 0)
         == RegionsOf(items[..k], 0) + [RegionAt(items, k, 0)]
            + RegionsOf(items[k + 1..], |Flat(items[..k])| + |items[k].lines|)
  {
    RegionsSum(items[..k], items[k..], 0);
    assert items[..k] + items[k..] == items;
    assert items[k..][1..] == items[k + 1..];
  }

  /** The first region found is the first item that carries the slug. */
  lemma IndexAmong(items: seq<Item>, slug: string)
    requires RegionWise(items)
    ensures var k, rs := IndexOf(items, slug), RegionsOf(items, 0);
            var i := RegionIndex(rs, slug);
            && i == |RegionsOf(items[..k], 0)|
            && (i < |rs| <==> k < |items|)
            && (i < |rs| ==> rs[i] == RegionAt(items, k, 0))
  {
    hide KindOf;
    var k, rs := IndexOf(items, slug), RegionsOf(items, 0);
    var before := RegionsOf(items[..k], 0);
    NoneCarries(items[..k], slug, 0);
    if k < |items| {
      assert RegionShaped(items[k]);
      RegionsAround(items, k);
      assert rs[|before|] == RegionAt(items, k, 0);
    } else {
      assert items[..k] == items;
    }
    forall j | 0 <= j < |before| ensures rs[j].mark.slug != slug {
      assert rs[j] == before[j] && before[j] in before;
    }
  }

  lemma Around<T>(before: seq<T>, x: T, after: seq<T>)
    ensures var all := before + [x] + after;
            all[..|before|] == before && all[|before|] == x && all[|before| + 1..] == after
  {
  }

  /** A text that is well formed for the region scanner, as its item list. */
  ghost predicate Reads(t: Text, items: seq<Item>) {
    RegionWise(items) && Flat(items) == t.lines && DistinctIds(RegionsOf(items, 0))
  }

  lemma ReadsAgree(t: Text, items: seq<Item>)
    requires RegionWise(items) && Flat(items) == t.lines
    ensures FindRegions(t.lines) == CheckDistinct(RegionsOf(items, 0))
  {
    ScannerIsGrammar(t.lines);
  }

  lemma ItemsOf(t: Text) returns (items: seq<Item>)
    requires FindRegions(t.lines).Ok?
    ensures Reads(t, items)
    ensures RegionsOf(items, 0) == FindRegions(t.lines).value
    ensures forall i | i in items :: !i.Block?
  {
    items := ItemsOfScan(t.lines, 0);
  }

  /** The rewritten text, read off the item list. */
  function PutText(t: Text, items: seq<Item>, mark: Mark, lines: seq<string>): Text {
    Text(Flat(Put(items, mark, lines)), t.closed || IndexOf(items, mark.slug) + 1 >= |items|)
  }

  lemma ReplaceOnItems(t: Text, items: seq<Item>, mark: Mark, lines: seq<string>)
    requires Reads(t, items)
    ensures ReplaceRegion(t, mark.slug, lines) == Ok(PutText(t, items, mark, lines))
  {
    hide KindOf;
    ReadsAgree(t, items);
    IndexAmong(items, mark.slug);
    var k := IndexOf(items, mark.slug);
    if k < |items| {
      FlatAround(items, k);
      FlatAround(Put(items, mark, lines), k);
      var r := RegionAt(items, k, 0);
      assert t.lines[..r.start] == Flat(items[..k]);
      assert t.lines[r.end + 1..] == Flat(items[k + 1..]);
      assert RegionWise(items[k + 1..]);
      FlatIsEmpty(items[k + 1..]);
    } else {
      FlatSum(items, [Owned(mark, lines)]);
      FlatOfOne(Owned(mark, lines));
    }
  }

  lemma FoundIs(rs: seq<Region>)
    requires DistinctIds(rs)
    ensures CheckDistinct(rs) == Ok(rs)
  {
  }

  lemma RemoveOnItems(t: Text, items: seq<Item>, slug: string)
    requires Reads(t, items)
    ensures RemoveRegion(t, slug)
         == Ok(Text(Flat(Drop(items, slug)), t.closed || IndexOf(items, slug) + 1 == |items|))
  {
    hide KindOf, FindRegions, Flat, RegionsOf, RegionShaped, DistinctIds;
    ReadsAgree(t, items);
    FoundIs(RegionsOf(items, 0));
    IndexAmong(items, slug);
    var k := IndexOf(items, slug);
    if k < |items| {
      FlatAround(items, k);
      FlatSum(items[..k], items[k + 1..]);
      var r := RegionAt(items, k, 0);
      var before, after := Flat(items[..k]), Flat(items[k + 1..]);
      assert t.lines[..r.start] == before;
      assert t.lines[r.end + 1..] == after;
      assert before + [] + after == before + after;
      assert RegionWise(items[k + 1..]);
      FlatIsEmpty(items[k + 1..]);
    }
  }

  lemma PutIsWise(items: seq<Item>, mark: Mark, lines: seq<string>)
    requires RegionWise(items) && IsRegionText(mark, lines)
    ensures RegionWise(Put(items, mark, lines))
  {
    hide KindOf;
    assert RegionShaped(Owned(mark, lines));
  }

  // -- the region list afterwards ----------------------------------------------------------

  function Shifted(rs: seq<Region>, offset: int): seq<Region> {
    seq(|rs|, i requires 0 <= i < |rs| => rs[i].(start := rs[i].start + offset, end := rs[i].end + offset))
  }

  /** The list with one region rewritten in its own place and the later ones moved, or added last. */
  function Updated(rs: seq<Region>, total: nat, mark: Mark, lines: seq<string>): seq<Region> {
    var i := RegionIndex(rs, mark.slug);
    if i == |rs| then rs + [Region(mark, total, total + |lines| - 1, lines)]
    else
      var start := rs[i].start;
      rs[..i] + [Region(mark, start, start + |lines| - 1, lines)]
      + Shifted(rs[i + 1..], start + |lines| - 1 - rs[i].end)
  }

  function Without(rs: seq<Region>, slug: string): seq<Region> {
    var i := RegionIndex(rs, slug);
    if i == |rs| then rs else rs[..i] + Shifted(rs[i + 1..], rs[i].start - 1 - rs[i].end)
  }

  lemma ShiftedNone(offset: int)
    ensures Shifted([], offset) == []
  {
  }

  lemma ShiftedFirst(r: Region, rest: seq<Region>, offset: int)
    ensures Shifted([r] + rest, offset) == [r.(start := r.start + offset, end := r.end + offset)] + Shifted(rest, offset)
  {
  }

  lemma {:induction false} RegionsMove(items: seq<Item>, from: nat, to: nat)
    ensures RegionsOf(items, to) == Shifted(RegionsOf(items, from), to - from)
    decreases |items|
  {
    hide Shifted;
    if items == [] {
      ShiftedNone(to - from);
    } else {
      var n := |LinesOf(items[0])|;
      RegionsMove(items[1..], from + n, to + n);
      if items[0].Owned? && items[0].lines != [] {
        ShiftedFirst(Region(items[0].mark, from, from + n - 1, items[0].lines), RegionsOf(items[1..], from + n), to - from);
      }
    }
  }

  lemma UpdatedAround(before: seq<Region>, r: Region, after: seq<Region>, total: nat, mark: Mark, lines: seq<string>)
    requires RegionIndex(before + [r] + after, mark.slug) == |before|
    ensures Updated(before + [r] + after, total, mark, lines)
         == before + [Region(mark, r.start, r.start + |lines| - 1, lines)]
            + Shifted(after, r.start + |lines| - 1 - r.end)
  {
    Around(before, r, after);
  }

  lemma UpdatedLast(rs: seq<Region>, total: nat, mark: Mark, lines: seq<string>)
    requires RegionIndex(rs, mark.slug) == |rs|
    ensures Updated(rs, total, mark, lines) == rs + [Region(mark, total, total + |lines| - 1, lines)]
  {
  }

  lemma WithoutAround(before: seq<Region>, r: Region, after: seq<Region>, slug: string)
    requires RegionIndex(before + [r] + after, slug) == |before|
    ensures Without(before + [r] + after, slug) == before + Shifted(after, r.start - 1 - r.end)
  {
    Around(before, r, after);
  }

  lemma PutRegions(items: seq<Item>, mark: Mark, lines: seq<string>)
    requires RegionWise(items) && lines != []
    ensures RegionsOf(Put(items, mark, lines), 0) == Updated(RegionsOf(items, 0), |Flat(items)|, mark, lines)
  {
    hide KindOf, IsRegionText, Flat, RegionsOf, RegionIndex, Updated, Shifted;
    var k := IndexOf(items, mark.slug);
    var put := Put(items, mark, lines);
    IndexAmong(items, mark.slug);
    if k < |items| {
      assert RegionShaped(items[k]);
      WholeRegion(items[k]);
      RegionsAround(items, k);
      RegionsAround(put, k);
      assert put[..k] == items[..k] && put[k + 1..] == items[k + 1..];
      var at := |Flat(items[..k])|;
      var after := items[k + 1..];
      RegionsMove(after, at + |items[k].lines|, at + |lines|);
      UpdatedAround(RegionsOf(items[..k], 0), RegionAt(items, k, 0), RegionsOf(after, at + |items[k].lines|), |Flat(items)|, mark, lines);
      assert RegionAt(put, k, 0) == Region(mark, at, at + |lines| - 1, lines);
    } else {
      assert items[..k] == items;
      RegionsSum(items, [Owned(mark, lines)], 0);
      RegionsOfOne(mark, lines, |Flat(items)|);
      UpdatedLast(RegionsOf(items, 0), |Flat(items)|, mark, lines);
    }
  }

  /**
   Rendering, replacing and scanning agree: after a region is written, the scan finds the old
   list with that region rewritten where it stood (or added last) and the others untouched,
   and refuses exactly when the written task id is already another region's.
   */
  lemma ReplaceThenFind(t: Text, mark: Mark, lines: seq<string>)
    requires FindRegions(t.lines).Ok? && IsRegionText(mark, lines)
    ensures ReplaceRegion(t, mark.slug, lines).Ok?
    ensures FindRegions(ReplaceRegion(t, mark.slug, lines).value.lines)
         == CheckDistinct(Updated(FindRegions(t.lines).value, |t.lines|, mark, lines))
  {
    hide KindOf;
    var items := ItemsOf(t);
    ReplaceOnItems(t, items, mark, lines);
    PutIsWise(items, mark, lines);
    PutRegions(items, mark, lines);
    ReadsAgree(PutText(t, items, mark, lines), Put(items, mark, lines));
  }

  /** No other region carries the id. */
  predicate FreshFor(rs: seq<Region>, mark: Mark) {
    var i := RegionIndex(rs, mark.slug);
    forall j | 0 <= j < |rs| && j != i :: rs[j].mark.id != mark.id
  }

  lemma UpdatedDistinct(rs: seq<Region>, total: nat, mark: Mark, lines: seq<string>)
    requires DistinctIds(rs)
    ensures DistinctIds(Updated(rs, total, mark, lines)) <==> FreshFor(rs, mark)
  {
    var i := RegionIndex(rs, mark.slug);
    var us := Updated(rs, total, mark, lines);
    assert |us| >= |rs| && i < |us| && us[i].mark == mark;
    assert forall j | 0 <= j < |rs| && j != i :: us[j].mark == rs[j].mark;
    if DistinctIds(us) {
      forall j | 0 <= j < |rs| && j != i ensures rs[j].mark.id != mark.id {
        assert us[j].mark.id != us[i].mark.id;
      }
    }
  }

  lemma WithoutDistinct(rs: seq<Region>, slug: string)
    requires DistinctIds(rs)
    ensures DistinctIds(Without(rs, slug))
  {
    var i, ws := RegionIndex(rs, slug), Without(rs, slug);
    forall j, k | 0 <= j < k < |ws| ensures ws[j].mark.id != ws[k].mark.id {
      if i < |rs| {
        assert rs[if j < i then j else j + 1].mark.id != rs[if k < i then k else k + 1].mark.id;
      }
    }
  }

  lemma DropRegions(items: seq<Item>, slug: string)
    requires RegionWise(items)
    ensures RegionsOf(Drop(items, slug), 0) == Without(RegionsOf(items, 0), slug)
  {
    hide KindOf, IsRegionText, Flat, RegionsOf, RegionIndex, Without, Shifted;
    var k := IndexOf(items, slug);
    IndexAmong(items, slug);
    if k < |items| {
      assert RegionShaped(items[k]);
      WholeRegion(items[k]);
      RegionsAround(items, k);
      RegionsSum(items[..k], items[k + 1..], 0);
      var at := |Flat(items[..k])|;
      var after := items[k + 1..];
      RegionsMove(after, at + |items[k].lines|, at);
      WithoutAround(RegionsOf(items[..k], 0), RegionAt(items, k, 0), RegionsOf(after, at + |items[k].lines|), slug);
    } else {
      assert items[..k] == items;
      WithoutNone(RegionsOf(items, 0), slug);
    }
  }

  lemma WithoutNone(rs: seq<Region>, slug: string)
    requires RegionIndex(rs, slug) == |rs|
    ensures Without(rs, slug) == rs
  {
  }

  lemma DropIsWise(items: seq<Item>, slug: string)
    requires RegionWise(items)
    ensures RegionWise(Drop(items, slug))
  {
  }

  /** Removing a region finds the others, with the later ones moved up. */
  lemma RemoveThenFind(t: Text, slug: string)
    requires FindRegions(t.lines).Ok?
    ensures RemoveRegion(t, slug).Ok?
    ensures FindRegions(RemoveRegion(t, slug).value.lines) == Ok(Without(FindRegions(t.lines).value, slug))
  {
    hide KindOf, IsRegionText, Flat, RegionsOf, FindRegions, Drop, Without;
    var items := ItemsOf(t);
    RemoveOnItems(t, items, slug);
    DropRegions(items, slug);
    DropIsWise(items, slug);
    WithoutDistinct(RegionsOf(items, 0), slug);
    ReadsAgree(RemoveRegion(t, slug).value, Drop(items, slug));
  }

  // -- independence ------------------------------------------------------------------------

  /** One replacement after another. */
  function Twice(t: Text, m1: Mark, r1: seq<string>, m2: Mark, r2: seq<string>): Result<Text, Fault> {
    match ReplaceRegion(t, m1.slug, r1)
    case Err(e) => Err(e)
    case Ok(u) => ReplaceRegion(u, m2.slug, r2)
  }

  lemma TwiceOnItems(t: Text, items: seq<Item>, m1: Mark, r1: seq<string>, m2: Mark, r2: seq<string>)
    requires Reads(t, items) && IsRegionText(m1, r1)
    requires Twice(t, m1, r1, m2, r2).Ok?
    ensures Twice(t, m1, r1, m2, r2) == Ok(PutText(PutText(t, items, m1, r1), Put(items, m1, r1), m2, r2))
    ensures Reads(PutText(t, items, m1, r1), Put(items, m1, r1))
  {
    hide KindOf;
    ReplaceOnItems(t, items, m1, r1);
    PutIsWise(items, m1, r1);
    var u := PutText(t, items, m1, r1);
    ReadsAgree(u, Put(items, m1, r1));
    ReplaceOnItems(u, Put(items, m1, r1), m2, r2);
  }

  lemma IndexAfterPut(items: seq<Item>, mark: Mark, lines: seq<string>, slug: string)
    ensures slug != mark.slug && IndexOf(items, slug) < |items| ==>
              IndexOf(Put(items, mark, lines), slug) == IndexOf(items, slug)
    ensures slug != mark.slug && IndexOf(items, slug) == |items| ==>
              IndexOf(Put(items, mark, lines), slug) == |Put(items, mark, lines)|
    ensures slug == mark.slug ==> IndexOf(Put(items, mark, lines), slug) == IndexOf(items, slug)
  {
    var put, k := Put(items, mark, lines), IndexOf(items, mark.slug);
    assert Carries(put[k], mark.slug);
    assert forall j | 0 <= j < |items| :: put[j] == items[j] || (put[j] == Owned(mark, lines) && Carries(items[j], mark.slug));
  }

  /**
   Replacing two different slugs gives the same bytes in either order exactly when at least
   one of the two regions is already there.
   */
  lemma ReplacementsCommute(t: Text, m1: Mark, r1: seq<string>, m2: Mark, r2: seq<string>)
    requires FindRegions(t.lines).Ok?
    requires IsRegionText(m1, r1) && IsRegionText(m2, r2) && m1.slug != m2.slug
    requires Twice(t, m1, r1, m2, r2).Ok? && Twice(t, m2, r2, m1, r1).Ok?
    ensures Twice(t, m1, r1, m2, r2) == Twice(t, m2, r2, m1, r1)
       <==> exists r | r in FindRegions(t.lines).value :: r.mark.slug == m1.slug || r.mark.slug == m2.slug
  {
    hide KindOf, FindRegions, Flat, RegionsOf, IsRegionText, RegionWise, Twice, Put, DistinctIds, IndexOf;
    var items := ItemsOf(t);
    ReadsAgree(t, items);
    TwiceOnItems(t, items, m1, r1, m2, r2);
    TwiceOnItems(t, items, m2, r2, m1, r1);
    IndexAfterPut(items, m1, r1, m2.slug);
    IndexAfterPut(items, m2, r2, m1.slug);
    Among(items, m1.slug);
    Among(items, m2.slug);
    PutsMeet(items, m1, r1, m2, r2);
    if IndexOf(items, m1.slug) == |items| && IndexOf(items, m2.slug) == |items| {
      BothAppended(items, m1, r1, m2, r2);
    }
  }

  lemma Among(items: seq<Item>, slug: string)
    requires RegionWise(items)
    ensures IndexOf(items, slug) < |items| <==> exists r | r in RegionsOf(items, 0) :: r.mark.slug == slug
  {
    hide KindOf, RegionWise, RegionsOf, IndexOf;
    IndexAmong(items, slug);
    var rs := RegionsOf(items, 0);
    var i := RegionIndex(rs, slug);
    if i < |rs| {
      assert rs[i] in rs;
    }
  }

  lemma PutsMeet(items: seq<Item>, m1: Mark, r1: seq<string>, m2: Mark, r2: seq<string>)
    requires m1.slug != m2.slug
    ensures IndexOf(items, m1.slug) < |items| || IndexOf(items, m2.slug) < |items| ==>
              Put(Put(items, m1, r1), m2, r2) == Put(Put(items, m2, r2), m1, r1)
    ensures IndexOf(items, m1.slug) == |items| && IndexOf(items, m2.slug) == |items| ==>
              && Put(Put(items, m1, r1), m2, r2) == items + [Owned(m1, r1)] + [Owned(m2, r2)]
              && Put(Put(items, m2, r2), m1, r1) == items + [Owned(m2, r2)] + [Owned(m1, r1)]
    ensures |Put(items, m1, r1)| == |items| + if IndexOf(items, m1.slug) == |items| then 1 else 0
    ensures |Put(items, m2, r2)| == |items| + if IndexOf(items, m2.slug) == |items| then 1 else 0
  {
    IndexAfterPut(items, m1, r1, m2.slug);
    IndexAfterPut(items, m2, r2, m1.slug);
  }

  lemma BothAppended(items: seq<Item>, m1: Mark, r1: seq<string>, m2: Mark, r2: seq<string>)
    requires IsRegionText(m1, r1) && IsRegionText(m2, r2) && m1.slug != m2.slug
    ensures Flat(items + [Owned(m1, r1)] + [Owned(m2, r2)]) != Flat(items + [Owned(m2, r2)] + [Owned(m1, r1)])
  {
    hide KindOf;
    var i1, i2 := [Owned(m1, r1)], [Owned(m2, r2)];
    FlatSum(items + i1, i2);
    FlatSum(items, i1);
    FlatSum(items + i2, i1);
    FlatSum(items, i2);
    FlatOfOne(Owned(m1, r1));
    FlatOfOne(Owned(m2, r2));
    var n := |Flat(items)|;
    assert Flat(items + i1 + i2)[n] == r1[0];
    assert Flat(items + i2 + i1)[n] == r2[0];
    assert KindOf(r1[0]) != KindOf(r2[0]);
  }

  /** When both ids are fresh and different, both orders go through. */
  lemma FreshReplacementsSucceed(t: Text, m1: Mark, r1: seq<string>, m2: Mark, r2: seq<string>)
    requires FindRegions(t.lines).Ok?
    requires IsRegionText(m1, r1) && FreshFor(FindRegions(t.lines).value, m1)
    ensures Twice(t, m1, r1, m2, r2).Ok?
  {
    ReplaceThenFind(t, m1, r1);
    UpdatedDistinct(FindRegions(t.lines).value, |t.lines|, m1, r1);
  }

  /** Writing a slug again leaves only the last writing; writing the same region twice is writing it once. */
  lemma LastWritingWins(t: Text, m1: Mark, r1: seq<string>, m2: Mark, r2: seq<string>)
    requires FindRegions(t.lines).Ok?
    requires IsRegionText(m1, r1) && m1.slug == m2.slug
    requires Twice(t, m1, r1, m2, r2).Ok?
    ensures Twice(t, m1, r1, m2, r2) == ReplaceRegion(t, m2.slug, r2)
  {
    hide KindOf;
    var items := ItemsOf(t);
    TwiceOnItems(t, items, m1, r1, m2, r2);
    IndexAfterPut(items, m1, r1, m2.slug);
    ReplaceOnItems(t, items, m2, r2);
    var k := IndexOf(items, m1.slug);
    assert Put(Put(items, m1, r1), m2, r2) == Put(items, m2, r2);
  }

  /** Removing what was newly added gives back the text, up to the newline that closed it. */
  lemma RemoveUndoesAdd(t: Text, mark: Mark, lines: seq<string>)
    requires FindRegions(t.lines).Ok? && IsRegionText(mark, lines)
    requires forall r | r in FindRegions(t.lines).value :: r.mark.slug != mark.slug
    requires FreshFor(FindRegions(t.lines).value, mark)
    ensures ReplaceRegion(t, mark.slug, lines).Ok?
    ensures RemoveRegion(ReplaceRegion(t, mark.slug, lines).value, mark.slug) == Ok(Close(t))
    ensures RemoveRegion(ReplaceRegion(t, mark.slug, lines).value, mark.slug) == Ok(t) <==> t.closed
  {
    hide KindOf, FindRegions, IsRegionText, RegionWise, RegionsOf, IndexOf, Put, Drop, ReplaceRegion, RemoveRegion,
         FreshFor, DistinctIds, Updated, Flat;
    var items := ItemsOf(t);
    var put, u := Put(items, mark, lines), PutText(t, items, mark, lines);
    ReadsAgree(t, items);
    FoundIs(RegionsOf(items, 0));
    Among(items, mark.slug);
    ReplaceOnItems(t, items, mark, lines);
    ReplaceThenFind(t, mark, lines);
    UpdatedDistinct(FindRegions(t.lines).value, |t.lines|, mark, lines);
    PutIsWise(items, mark, lines);
    ReadsAgree(u, put);
    PutRegions(items, mark, lines) by { RegionIsSomething(mark, lines); }
    RemoveOnItems(u, put, mark.slug);
    DropUndoesPut(items, mark, lines);
  }

  lemma RegionIsSomething(mark: Mark, lines: seq<string>)
    requires IsRegionText(mark, lines)
    ensures lines != []
  {
    hide KindOf;
  }

  lemma DropUndoesPut(items: seq<Item>, mark: Mark, lines: seq<string>)
    requires IndexOf(items, mark.slug) == |items|
    ensures Drop(Put(items, mark, lines), mark.slug) == items
    ensures IndexOf(Put(items, mark, lines), mark.slug) == |items| && |Put(items, mark, lines)| == |items| + 1
  {
    IndexAfterPut(items, mark, lines, mark.slug);
  }
}
