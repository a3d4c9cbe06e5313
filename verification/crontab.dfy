/**
 A whole crontab: regions, the shared block and everybody else's lines together.

 A crontab is in order when both scans accept it, the block and the regions do not overlap,
 and no slug appears twice in either.  ItemsOfCrontab: every crontab in order is one item list
 that both scanners read alike, whose loose lines are its unmanaged lines.
 */
module Crontabs {
  import Sequences
  import opened Results
  import opened Faults
  import opened Texts
  import opened Markers
  import opened Regions
  import opened RegionLaws
  import opened Blocks
  import opened BlockLaws

  datatype Entry = Entry(mark: Mark, lines: seq<string>)

  function RegionEntries(rs: seq<Region>): seq<Entry> {
    seq(|rs|, i requires 0 <= i < |rs| => Entry(rs[i].mark, rs[i].lines))
  }

  function MemberEntries(ms: seq<BlockMember>): seq<Entry> {
    seq(|ms|, i requires 0 <= i < |ms| => Entry(ms[i].mark, ms[i].lines))
  }

  /** Entries by slug; the first one of a slug counts. */
  function BySlug(es: seq<Entry>): map<string, Entry> {
    if es == [] then map[] else BySlug(es[1..])[es[0].mark.slug := es[0]]
  }

  predicate DistinctSlugs(es: seq<Entry>) {
    forall i, j | 0 <= i < j < |es| :: es[i].mark.slug != es[j].mark.slug
  }

  function RegionMap(t: Text): map<string, Entry> {
    match FindRegions(t.lines)
    case Ok(rs) => BySlug(RegionEntries(rs))
    case Err(_) => map[]
  }

  function MemberMap(t: Text): map<string, Entry> {
    match FindMembers(t.lines)
    case Ok(ms) => BySlug(MemberEntries(ms))
    case Err(_) => map[]
  }

  // -- what is not managed -----------------------------------------------------------------

  predicate InRegion(rs: seq<Region>, i: int) {
    exists k | 0 <= k < |rs| :: rs[k].start <= i <= rs[k].end
  }

  predicate InBlock(block: Option<(nat, nat)>, i: int) {
    block.Some? && block.value.0 <= i <= block.value.1
  }

  /** The lines outside every region and outside the block; `at` is the index of the first. */
  function Outside(lines: seq<string>, at: int, rs: seq<Region>, block: Option<(nat, nat)>): seq<string> {
    if lines == [] then []
    else
      (if InRegion(rs, at) || InBlock(block, at) then [] else [lines[0]])
      + Outside(lines[1..], at + 1, rs, block)
  }

  /** The lines that are nobody's managed content. */
  function Unmanaged(t: Text): seq<string> {
    match (FindRegions(t.lines), BlockBounds(t.lines))
    case (Ok(rs), Ok(block)) => Outside(t.lines, 0, rs, block)
    case _ => t.lines
  }

  /** No region shares a line with the block. */
  predicate Apart(rs: seq<Region>, block: Option<(nat, nat)>) {
    block.Some? ==> forall k | 0 <= k < |rs| :: rs[k].end < block.value.0 || block.value.1 < rs[k].start
  }

  predicate InOrder(t: Text) {
    && FindRegions(t.lines).Ok?
    && FindMembers(t.lines).Ok?
    && Apart(FindRegions(t.lines).value, BlockBounds(t.lines).value)
    && DistinctSlugs(RegionEntries(FindRegions(t.lines).value))
    && DistinctSlugs(MemberEntries(FindMembers(t.lines).value))
  }

  // -- a crontab as items --------------------------------------------------------------------

  /** A whole block: its markers around lines with no further begin marker. */
  predicate IsBlockText(lines: seq<string>) {
    && |lines| >= 2
    && KindOf(lines[0]).BlockBegin?
    && KindOf(lines[|lines| - 1]).BlockEnd?
    && NoBegin(lines[1..|lines| - 1])
  }

  predicate BlockShaped(item: Item) {
    if item.Block? then IsBlockText(item.lines) else NoBlockEdge(LinesOf(item))
  }

  /** Items as both scanners see them, with one block at most. */
  predicate Valid(items: seq<Item>) {
    && RegionWise(items)
    && (forall i | i in items :: BlockShaped(i))
    && (forall i, j | 0 <= i < j < |items| :: !items[i].Block? || !items[j].Block?)
  }

  function BlockIndex(items: seq<Item>): (k: nat)
    ensures k <= |items|
    ensures k < |items| ==> items[k].Block?
    ensures forall j | 0 <= j < k :: !items[j].Block?
  {
    if items == [] || items[0].Block? then 0 else 1 + BlockIndex(items[1..])
  }

  function BlockOf(items: seq<Item>): Option<seq<string>> {
    var k := BlockIndex(items);
    if k < |items| then Some(items[k].lines) else None
  }

  function MembersIn(block: Option<seq<string>>): Members {
    match block
    case None => Ok([])
    case Some(lines) => CheckMembers(if |lines| < 2 then [] else Gather(lines[1..|lines| - 1]))
  }

  function LooseOf(items: seq<Item>): seq<string> {
    if items == [] then []
    else (if items[0].Loose? then [items[0].line] else []) + LooseOf(items[1..])
  }

  lemma {:induction false} LooseSum(a: seq<Item>, b: seq<Item>)
    ensures LooseOf(a + b) == LooseOf(a) + LooseOf(b)
  {
    if a == [] {
      Sequences.NothingFirst(b);
    } else {
      LooseSum(a[1..], b);
      Sequences.HeadOfSum(a, b);
      Sequences.Assoc(if a[0].Loose? then [a[0].line] else [], LooseOf(a[1..]), LooseOf(b));
    }
  }

  lemma LooseAround(items: seq<Item>, k: nat)
    requires k < |items| && !items[k].Loose?
    ensures LooseOf(items) == LooseOf(items[..k]) + LooseOf(items[k + 1..])
  {
    var one, rest := [items[k]], items[k + 1..];
    Sequences.SplitAt(items, k);
    LooseSum(items[..k], one + rest);
    LooseSum(one, rest);
    assert LooseOf(one) == [];
    Sequences.NothingFirst(LooseOf(rest));
  }

  lemma {:induction false} NoEdgesIn(items: seq<Item>)
    requires forall i | i in items :: BlockShaped(i) && !i.Block?
    ensures NoBlockEdge(Flat(items))
  {
    hide KindOf, NoBlockEdge;
    if items == [] {
      EmptyHasNoEdge();
    } else {
      assert BlockShaped(items[0]);
      NoEdgesIn(items[1..]);
      NoEdgeSum(LinesOf(items[0]), Flat(items[1..]));
    }
  }

  lemma EmptyHasNoEdge()
    ensures NoBlockEdge([])
  {
  }

  function Span(items: seq<Item>): Option<(nat, nat)> {
    var k := BlockIndex(items);
    if k < |items| then
      var b := |Flat(items[..k])|;
      Some((b, if items[k].lines == [] then b else b + |items[k].lines| - 1))
    else None
  }

  /** The block scanner finds the block item and its members. */
  lemma BlockOfItems(items: seq<Item>)
    requires Valid(items)
    ensures BlockBounds(Flat(items)) == Ok(Span(items))
    ensures FindMembers(Flat(items)) == MembersIn(BlockOf(items))
  {
    hide KindOf, Gather, Flat, RegionShaped, IsBlockAt, NoBlockEdge, BlockBounds, CheckMembers, Valid;
    var k := BlockIndex(items);
    BoundsMean(Flat(items));
    NoOtherBlock(items, k);
    if k < |items| {
      FlatAround(items, k);
      var before, block, after := Flat(items[..k]), items[k].lines, Flat(items[k + 1..]);
      BlockStands(before, block, after);
      Inside(before, block, after);
    }
  }

  lemma NoOtherBlock(items: seq<Item>, k: nat)
    requires Valid(items) && k == BlockIndex(items)
    ensures k == |items| ==> NoBlockEdge(Flat(items))
    ensures k < |items| ==> NoBlockEdge(Flat(items[..k])) && NoBlockEdge(Flat(items[k + 1..])) && IsBlockText(items[k].lines)
  {
    hide KindOf, Flat, RegionShaped, NoBlockEdge, IsBlockText;
    if k < |items| {
      assert BlockShaped(items[k]);
      forall i | i in items[k + 1..] ensures !i.Block? {
      }
      NoEdgesIn(items[..k]);
      NoEdgesIn(items[k + 1..]);
    } else {
      NoEdgesIn(items);
    }
  }

  lemma Inside(before: seq<string>, block: seq<string>, after: seq<string>)
    requires |block| >= 2
    ensures (before + block + after)[|before| + 1..|before| + |block| - 1] == block[1..|block| - 1]
  {
  }

  lemma BlockStands(before: seq<string>, block: seq<string>, after: seq<string>)
    requires NoBlockEdge(before) && NoBlockEdge(after) && IsBlockText(block)
    ensures IsBlockAt(before + block + after, |before|, |before| + |block| - 1)
  {
    hide KindOf;
    var lines, b, e := before + block + after, |before|, |before| + |block| - 1;
    forall i | 0 <= i < |lines|
      ensures BeginAt(lines, i) ==> i == b
      ensures EndAt(lines, i) ==> b < i <= e
    {
      if i < b {
        assert lines[i] == before[i] && before[i] in before;
      } else if i > e {
        assert lines[i] == after[i - e - 1] && lines[i] in after;
      } else {
        assert lines[i] == block[i - b];
        if b < i < e {
          assert block[1..|block| - 1][i - b - 1] == lines[i];
          assert lines[i] in block[1..|block| - 1];
        }
      }
    }
  }

  // -- the unmanaged lines of an item list ---------------------------------------------------

  lemma {:induction false} OutsideSum(a: seq<string>, b: seq<string>, at: int, rs: seq<Region>, block: Option<(nat, nat)>)
    ensures Outside(a + b, at, rs, block) == Outside(a, at, rs, block) + Outside(b, at + |a|, rs, block)
    decreases |a|
  {
    if a == [] {
      assert a + b == b;
    } else {
      assert (a + b)[1..] == a[1..] + b;
      OutsideSum(a[1..], b, at + 1, rs, block);
    }
  }

  lemma {:induction false} AllInside(lines: seq<string>, at: int, rs: seq<Region>, block: Option<(nat, nat)>)
    requires forall i | at <= i < at + |lines| :: InRegion(rs, i) || InBlock(block, i)
    ensures Outside(lines, at, rs, block) == []
    decreases |lines|
  {
    if lines != [] {
      AllInside(lines[1..], at + 1, rs, block);
    }
  }

  lemma {:induction false} RegionsWithin(items: seq<Item>, at: nat)
    ensures Within(RegionsOf(items, at), at, at + |Flat(items)|)
    decreases |items|
  {
    if items != [] {
      RegionsWithin(items[1..], at + |LinesOf(items[0])|);
    }
  }

  lemma PlaceOf(items: seq<Item>, j: nat, k: nat)
    requires j < k < |items|
    ensures |Flat(items[..j])| + |LinesOf(items[j])| <= |Flat(items[..k])|
  {
    assert items[..k][..j] == items[..j];
    FlatAround(items[..k], j);
  }

  /** Lines of an item are inside a region exactly when the item is one. */
  lemma RegionCoverage(items: seq<Item>, k: nat, i: int)
    requires k < |items| && LinesOf(items[k]) != []
    requires |Flat(items[..k])| <= i < |Flat(items[..k])| + |LinesOf(items[k])|
    ensures InRegion(RegionsOf(items, 0), i) <==> items[k].Owned?
  {
    hide KindOf, Flat, RegionsOf;
    var from := |Flat(items[..k])|;
    var next := from + |LinesOf(items[k])|;
    var one, rest := [items[k]], items[k + 1..];
    Sequences.SplitAt(items, k);
    RegionsSum(items[..k], one + rest, 0);
    RegionsSum(one, rest, from);
    FlatOfOne(items[k]);
    RegionsWithin(items[..k], 0);
    RegionsWithin(rest, next);
    OneItem(items[k], from);
    Covered(RegionsOf(items[..k], 0), RegionsOf(one, from), RegionsOf(rest, next), from, next, i);
  }

  lemma Covered(before: seq<Region>, one: seq<Region>, after: seq<Region>, from: int, next: int, i: int)
    requires from <= i < next
    requires forall k | 0 <= k < |before| :: before[k].end < from
    requires forall k | 0 <= k < |after| :: next <= after[k].start
    requires |one| <= 1 && forall k | 0 <= k < |one| :: one[k].start == from && one[k].end == next - 1
    ensures InRegion(before + (one + after), i) <==> one != []
  {
    var rs := before + (one + after);
    assert one != [] ==> rs[|before|] == one[0];
  }

  /** And inside the block exactly when it is the block. */
  lemma BlockCoverage(items: seq<Item>, k: nat, i: int)
    requires Valid(items) && k < |items|
    requires |Flat(items[..k])| <= i < |Flat(items[..k])| + |LinesOf(items[k])|
    ensures InBlock(Span(items), i) <==> items[k].Block?
  {
    hide KindOf, Flat, IsRegionText, IsBlockText;
    var b := BlockIndex(items);
    if b < |items| {
      if b < k {
        PlaceOf(items, b, k);
      } else if k < b {
        PlaceOf(items, k, b);
      }
      assert RegionShaped(items[b]);
      WholeRegion(items[b]);
    }
  }

  /** An item's lines are inside a region or the block exactly when it is not loose. */
  lemma Coverage(items: seq<Item>, k: nat, i: int)
    requires Valid(items) && k < |items|
    requires |Flat(items[..k])| <= i < |Flat(items[..k])| + |LinesOf(items[k])|
    ensures (InRegion(RegionsOf(items, 0), i) || InBlock(Span(items), i)) <==> !items[k].Loose?
  {
    hide KindOf, Flat, RegionsOf, InRegion, InBlock, Span, RegionShaped;
    assert RegionShaped(items[k]);
    WholeRegion(items[k]);
    RegionCoverage(items, k, i);
    BlockCoverage(items, k, i);
  }

  lemma OneItem(item: Item, at: nat)
    ensures RegionsOf([item], at)
         == if item.Owned? && item.lines != [] then [Region(item.mark, at, at + |item.lines| - 1, item.lines)] else []
  {
  }

  lemma {:induction false} OutsideFrom(items: seq<Item>, k: nat)
    requires Valid(items) && k <= |items|
    ensures Outside(Flat(items[k..]), |Flat(items[..k])|, RegionsOf(items, 0), Span(items)) == LooseOf(items[k..])
    decreases |items| - k
  {
    hide KindOf, Flat, RegionsOf, Span, InRegion, InBlock, Valid;
    if k == |items| {
      FlatOfNone();
      assert items[k..] == [];
    } else {
      var from, rs, block := |Flat(items[..k])|, RegionsOf(items, 0), Span(items);
      var lines := LinesOf(items[k]);
      OutsideFrom(items, k + 1);
      FlatNext(items, k);
      OutsideSum(lines, Flat(items[k + 1..]), from, rs, block);
      forall i | from <= i < from + |lines|
        ensures (InRegion(rs, i) || InBlock(block, i)) <==> !items[k].Loose?
      {
        Coverage(items, k, i);
      }
      assert items[k..][0] == items[k] && items[k..][1..] == items[k + 1..];
      if items[k].Loose? {
        assert Outside(lines, from, rs, block) == [items[k].line] + Outside([], from + 1, rs, block);
      } else {
        AllInside(lines, from, rs, block);
      }
    }
  }

  lemma FlatOfNone()
    ensures Flat([]) == []
  {
  }

  lemma FlatNext(items: seq<Item>, k: nat)
    requires k < |items|
    ensures Flat(items[k..]) == LinesOf(items[k]) + Flat(items[k + 1..])
    ensures Flat(items[..k + 1]) == Flat(items[..k]) + LinesOf(items[k])
  {
    assert items[k..][0] == items[k] && items[k..][1..] == items[k + 1..];
    assert items[..k + 1] == items[..k] + [items[k]];
    FlatSum(items[..k], [items[k]]);
    FlatOfOne(items[k]);
  }

  lemma UnmanagedOfItems(t: Text, items: seq<Item>)
    requires Valid(items) && Flat(items) == t.lines && DistinctIds(RegionsOf(items, 0))
    ensures Unmanaged(t) == LooseOf(items)
    ensures Apart(RegionsOf(items, 0), Span(items))
  {
    hide KindOf, RegionsOf, Outside, LooseOf, Valid;
    ReadsAgree(t, items) by { ValidIsWise(items); }
    BlockOfItems(items);
    OutsideFrom(items, 0);
    assert items[0..] == items && items[..0] == [];
    BlockIsApart(items);
  }

  lemma ValidIsWise(items: seq<Item>)
    requires Valid(items)
    ensures RegionWise(items)
  {
  }

  lemma BlockIsApart(items: seq<Item>)
    requires Valid(items)
    ensures Apart(RegionsOf(items, 0), Span(items))
  {
    hide KindOf, RegionsOf, Flat, RegionShaped, Apart;
    var k := BlockIndex(items);
    if k < |items| {
      var from := |Flat(items[..k])|;
      var next := from + |items[k].lines|;
      var one, rest := [items[k]], items[k + 1..];
      assert RegionShaped(items[k]);
      WholeRegion(items[k]);
      Sequences.SplitAt(items, k);
      RegionsSum(items[..k], one + rest, 0);
      RegionsSum(one, rest, from);
      FlatOfOne(items[k]);
      OneItem(items[k], from);
      RegionsWithin(items[..k], 0);
      RegionsWithin(rest, next);
      Sequences.NothingFirst(RegionsOf(rest, next));
      ApartAround(RegionsOf(items[..k], 0), RegionsOf(rest, next), from, next - 1);
    } else {
      NoBlockIsApart(RegionsOf(items, 0));
    }
  }

  lemma ApartAround(before: seq<Region>, after: seq<Region>, b: nat, e: nat)
    requires forall k | 0 <= k < |before| :: before[k].end < b
    requires forall k | 0 <= k < |after| :: e < after[k].start
    ensures Apart(before + after, Some((b, e)))
  {
  }

  lemma NoBlockIsApart(rs: seq<Region>)
    ensures Apart(rs, None)
  {
  }

  // -- every crontab in order is such an item list -------------------------------------------

  /** A position that is not strictly inside a region falls between two items. */
  lemma {:induction false} CutAt(items: seq<Item>, at: nat, pos: nat) returns (k: nat)
    requires RegionWise(items) && forall i | i in items :: !i.Block?
    requires at <= pos <= at + |Flat(items)|
    requires forall j | 0 <= j < |RegionsOf(items, at)| ::
               pos <= RegionsOf(items, at)[j].start || RegionsOf(items, at)[j].end < pos
    ensures k <= |items| && at + |Flat(items[..k])| == pos
    decreases |items|
  {
    hide KindOf;
    if pos == at {
      k := 0;
    } else {
      var first, next := items[0], at + |LinesOf(items[0])|;
      assert RegionShaped(first);
      var rs, rest := RegionsOf(items, at), RegionsOf(items[1..], next);
      if first.Owned? {
        assert rs[0] == Region(first.mark, at, next - 1, first.lines);
        assert forall j | 0 <= j < |rest| :: rest[j] == rs[j + 1];
      }
      var k' := CutAt(items[1..], next, pos);
      k := k' + 1;
      assert items[..k][1..] == items[1..][..k'];
    }
  }

  lemma {:induction false} PartsAreFree(items: seq<Item>)
    requires forall i | i in items :: !i.Block?
    requires NoBlockEdge(Flat(items))
    ensures forall i | i in items :: BlockShaped(i)
  {
    hide KindOf;
    if items != [] {
      assert Flat(items[1..]) == Flat(items)[|LinesOf(items[0])|..];
      PartsAreFree(items[1..]);
      assert forall l | l in LinesOf(items[0]) :: l in Flat(items);
    }
  }

  lemma {:induction false} LoosePart(items: seq<Item>)
    requires RegionWise(items) && forall i | i in items :: i.Loose?
    ensures NoRegionMarker(Flat(items)) && forall at: nat :: RegionsOf(items, at) == []
  {
    hide KindOf;
    if items != [] {
      assert RegionShaped(items[0]);
      LoosePart(items[1..]);
    }
  }

  ghost predicate Shows(t: Text, items: seq<Item>) {
    && Valid(items) && Flat(items) == t.lines
    && FindRegions(t.lines) == Ok(RegionsOf(items, 0))
    && BlockBounds(t.lines) == Ok(Span(items))
    && FindMembers(t.lines) == MembersIn(BlockOf(items))
    && Unmanaged(t) == LooseOf(items)
    && Apart(RegionsOf(items, 0), Span(items))
  }

  lemma ShowsFrom(t: Text, items: seq<Item>)
    requires Valid(items) && Flat(items) == t.lines && DistinctIds(RegionsOf(items, 0))
    ensures Shows(t, items)
  {
    hide KindOf, Flat, RegionsOf, LooseOf, Span, Apart, BlockOf, DistinctIds, Valid;
    ReadsAgree(t, items) by { ValidIsWise(items); }
    UnmanagedOfItems(t, items);
    BlockOfItems(items);
  }

  /** The items between the two cuts around the block are loose. */
  lemma BetweenIsLoose(items: seq<Item>, k1: nat, k2: nat, b: nat, e: nat)
    requires RegionWise(items) && forall i | i in items :: !i.Block?
    requires k1 <= k2 <= |items| && |Flat(items[..k1])| == b && |Flat(items[..k2])| == e + 1
    requires Apart(RegionsOf(items, 0), Some((b, e)))
    ensures forall i | i in items[k1..k2] :: i.Loose?
  {
    hide KindOf, Flat, RegionsOf;
    forall j | k1 <= j < k2 ensures items[j].Loose? {
      if items[j].Owned? {
        assert RegionShaped(items[j]);
        WholeRegion(items[j]);
        RegionsAround(items, j);
        var r := RegionAt(items, j, 0);
        var rs := RegionsOf(items, 0);
        assert rs[|RegionsOf(items[..j], 0)|] == r;
        PrefixGrows(items, k1, j);
        PrefixGrows(items, j + 1, k2);
        FlatNext(items, j);
        assert false;
      }
    }
  }

  lemma PrefixGrows(items: seq<Item>, j: nat, k: nat)
    requires j <= k <= |items|
    ensures |Flat(items[..j])| <= |Flat(items[..k])|
  {
    FlatSum(items[..j], items[j..k]);
    assert items[..j] + items[j..k] == items[..k];
  }

  lemma ItemsOfCrontab(t: Text) returns (items: seq<Item>)
    requires InOrder(t)
    ensures Shows(t, items)
  {
    hide KindOf, Flat, RegionsOf, RegionWise, NoBlockEdge, IsBlockAt, Shows, NoRegionMarker;
    var found := ItemsOf(t);
    var rs := RegionsOf(found, 0);
    BoundsMean(t.lines);
    match BlockBounds(t.lines).value {
      case None =>
        items := found;
        PartsAreFree(items);
      case Some((b, e)) =>
        AroundBlock(t.lines, b, e);
        assert forall j | 0 <= j < |rs| :: rs[j].start <= rs[j].end by { RegionsWithin(found, 0); }
        var k1 := CutAt(found, 0, b);
        var k2 := CutAt(found, 0, e + 1);
        if k2 < k1 {
          PrefixGrows(found, k2, k1);
          assert false;
        }
        BetweenIsLoose(found, k1, k2, b, e);
        var block := t.lines[b..e + 1];
        items := WithBlock(found, k1, k2, block);
        SplitFlat(found, k1, k2, t.lines, b, e);
        BlockCut(t.lines, b, e);
        WithBlockIsValid(found, k1, k2, block);
    }
    ShowsFrom(t, items);
  }

  function WithBlock(items: seq<Item>, k1: nat, k2: nat, block: seq<string>): seq<Item>
    requires k1 <= k2 <= |items|
  {
    items[..k1] + [Block(block)] + items[k2..]
  }

  lemma BlockCut(lines: seq<string>, b: nat, e: nat)
    requires IsBlockAt(lines, b, e)
    ensures IsBlockText(lines[b..e + 1])
  {
    hide KindOf;
    AroundBlock(lines, b, e);
    var block := lines[b..e + 1];
    assert block[1..|block| - 1] == lines[b + 1..e];
  }

  lemma SplitFlat(items: seq<Item>, k1: nat, k2: nat, lines: seq<string>, b: nat, e: nat)
    requires Flat(items) == lines && b <= e < |lines|
    requires k1 <= k2 <= |items| && |Flat(items[..k1])| == b && |Flat(items[..k2])| == e + 1
    ensures Flat(items[..k1]) == lines[..b]
    ensures Flat(items[k1..k2]) == lines[b..e + 1]
    ensures Flat(items[k2..]) == lines[e + 1..]
  {
    hide Flat;
    FlatSum(items[..k1], items[k1..k2]);
    FlatSum(items[..k2], items[k2..]);
    assert items[..k1] + items[k1..k2] == items[..k2];
    assert items[..k2] + items[k2..] == items;
  }

  lemma WithBlockIsValid(items: seq<Item>, k1: nat, k2: nat, block: seq<string>)
    requires RegionWise(items) && forall i | i in items :: !i.Block?
    requires k1 <= k2 <= |items| && forall i | i in items[k1..k2] :: i.Loose?
    requires block == Flat(items[k1..k2]) && IsBlockText(block)
    requires NoBlockEdge(Flat(items[..k1])) && NoBlockEdge(Flat(items[k2..]))
    ensures Valid(WithBlock(items, k1, k2, block))
    ensures RegionsOf(WithBlock(items, k1, k2, block), 0) == RegionsOf(items, 0)
    ensures Flat(WithBlock(items, k1, k2, block)) == Flat(items)
  {
    hide KindOf, Flat, RegionsOf, IsBlockText, RegionWise, BlockShaped;
    var a, m, c := items[..k1], items[k1..k2], items[k2..];
    assert RegionWise(a) && RegionWise(m) && RegionWise(c) by { WiseParts(items, k1, k2); }
    LoosePart(m);
    PartsAreFree(a);
    PartsAreFree(c);
    assert items == a + m + c;
    OneBlockValid(a, block, c);
    BlockInPlace(a, m, c, block);
  }

  lemma WiseParts(items: seq<Item>, k1: nat, k2: nat)
    requires RegionWise(items) && k1 <= k2 <= |items|
    ensures RegionWise(items[..k1]) && RegionWise(items[k1..k2]) && RegionWise(items[k2..])
  {
    hide KindOf;
  }

  lemma OneBlockValid(a: seq<Item>, block: seq<string>, c: seq<Item>)
    requires RegionWise(a) && RegionWise(c) && forall i | i in a + c :: BlockShaped(i) && !i.Block?
    requires IsBlockText(block) && NoRegionMarker(block)
    ensures Valid(a + [Block(block)] + c)
  {
    hide KindOf, IsBlockText, NoRegionMarker;
    var all := a + [Block(block)] + c;
    assert RegionShaped(Block(block)) && BlockShaped(Block(block)) by { BlockIsShaped(block); }
    forall i | i in all ensures RegionShaped(i) && BlockShaped(i) {
      assert i in a || i == Block(block) || i in c;
      assert i in a || i in c ==> i in a + c;
    }
    forall i | 0 <= i < |all| && i != |a| ensures !all[i].Block? {
      assert all[i] in a + c;
    }
  }

  lemma BlockIsShaped(block: seq<string>)
    requires IsBlockText(block) && NoRegionMarker(block)
    ensures RegionShaped(Block(block)) && BlockShaped(Block(block))
  {
    hide KindOf;
  }

  lemma BlockInPlace(a: seq<Item>, m: seq<Item>, c: seq<Item>, block: seq<string>)
    requires block == Flat(m) && forall at: nat :: RegionsOf(m, at) == []
    ensures Flat(a + [Block(block)] + c) == Flat(a + m + c)
    ensures RegionsOf(a + [Block(block)] + c, 0) == RegionsOf(a + m + c, 0)
  {
    hide KindOf, Flat, RegionsOf;
    var n := |Flat(a)|;
    FlatSum(a + m, c);
    FlatSum(a, m);
    FlatSum(a + [Block(block)], c);
    FlatSum(a, [Block(block)]);
    FlatOfOne(Block(block));
    RegionsSum(a + m, c, 0);
    RegionsSum(a, m, 0);
    RegionsSum(a + [Block(block)], c, 0);
    RegionsSum(a, [Block(block)], 0);
    OneItem(Block(block), n);
    assert RegionsOf(m, n) == [];
  }
}
