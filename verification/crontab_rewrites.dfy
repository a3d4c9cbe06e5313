/**
 The four rewrites of a crontab in order, each as an update of one map.

 RegionWritten, RegionRemoved, MemberWritten and MemberRemoved: the crontab stays in order,
 the written or removed slug changes in its own map, the other map and every unmanaged line
 stay as they were.  A write is refused by the next scan exactly when its task id belongs to
 another slug there.
 */
module CrontabRewrites {
  import Sequences
  import opened Results
  import opened Faults
  import opened Texts
  import opened Markers
  import opened Regions
  import opened RegionLaws
  import opened Blocks
  import opened BlockLaws
  import opened Crontabs

  // -- entry lists and their maps ------------------------------------------------------------

  function EntryIndex(es: seq<Entry>, slug: string): (k: nat)
    ensures k <= |es|
    ensures k < |es| ==> es[k].mark.slug == slug
    ensures forall j | 0 <= j < k :: es[j].mark.slug != slug
  {
    if es == [] || es[0].mark.slug == slug then 0 else 1 + EntryIndex(es[1..], slug)
  }

  function PutEntry(es: seq<Entry>, e: Entry): seq<Entry> {
    var k := EntryIndex(es, e.mark.slug);
    if k < |es| then es[k := e] else es + [e]
  }

  function DropEntry(es: seq<Entry>, slug: string): seq<Entry> {
    var k := EntryIndex(es, slug);
    if k < |es| then es[..k] + es[k + 1..] else es
  }

  lemma {:induction false} PutIsUpdate(es: seq<Entry>, e: Entry)
    ensures BySlug(PutEntry(es, e)) == BySlug(es)[e.mark.slug := e]
    ensures DistinctSlugs(es) ==> DistinctSlugs(PutEntry(es, e))
  {
    if es != [] {
      PutIsUpdate(es[1..], e);
      if es[0].mark.slug == e.mark.slug {
        assert PutEntry(es, e)[1..] == es[1..];
      } else {
        assert PutEntry(es, e)[1..] == PutEntry(es[1..], e);
      }
    }
  }

  lemma {:induction false} SlugsAmong(es: seq<Entry>)
    ensures forall s :: s in BySlug(es) <==> exists i | 0 <= i < |es| :: es[i].mark.slug == s
    ensures DistinctSlugs(es) ==> forall i | 0 <= i < |es| :: BySlug(es)[es[i].mark.slug] == es[i]
    ensures forall s | s in BySlug(es) :: BySlug(es)[s].mark.slug == s && BySlug(es)[s] in es
  {
    if es != [] {
      SlugsAmong(es[1..]);
    }
  }

  lemma DropIsDistinct(es: seq<Entry>, slug: string)
    requires DistinctSlugs(es)
    ensures DistinctSlugs(DropEntry(es, slug))
  {
    var k, ds := EntryIndex(es, slug), DropEntry(es, slug);
    forall i, j | 0 <= i < j < |ds| ensures ds[i].mark.slug != ds[j].mark.slug {
      if k < |es| {
        assert es[if i < k then i else i + 1].mark.slug != es[if j < k then j else j + 1].mark.slug;
      }
    }
  }

  lemma BySlugNext(first: Entry, rest: seq<Entry>)
    ensures BySlug([first] + rest) == BySlug(rest)[first.mark.slug := first]
  {
    assert ([first] + rest)[1..] == rest;
  }

  lemma DropNext(es: seq<Entry>, slug: string)
    requires es != []
    ensures es[0].mark.slug == slug ==> DropEntry(es, slug) == es[1..]
    ensures es[0].mark.slug != slug ==> DropEntry(es, slug) == [es[0]] + DropEntry(es[1..], slug)
  {
    var rest := es[1..];
    assert EntryIndex(es, slug) == if es[0].mark.slug == slug then 0 else 1 + EntryIndex(rest, slug);
    hide EntryIndex;
    var k := EntryIndex(rest, slug);
    if es[0].mark.slug != slug && k < |rest| {
      assert es[..k + 1] == [es[0]] + rest[..k] && es[k + 2..] == rest[k + 1..];
      Sequences.Assoc([es[0]], rest[..k], rest[k + 1..]);
    }
  }

  lemma {:induction false} DropIsRemoval(es: seq<Entry>, slug: string)
    requires DistinctSlugs(es)
    ensures BySlug(DropEntry(es, slug)) == BySlug(es) - {slug}
  {
    if es != [] {
      hide BySlug, DropEntry;
      var first, rest := es[0], es[1..];
      assert es == [first] + rest;
      BySlugNext(first, rest);
      DropNext(es, slug);
      UpdateThenRemove(BySlug(rest), first, slug);
      if first.mark.slug == slug {
        assert slug !in BySlug(rest) by {
          SlugsAmong(rest);
        }
      } else {
        assert DistinctSlugs(rest);
        DropIsRemoval(rest, slug);
        BySlugNext(first, DropEntry(rest, slug));
      }
    }
  }

  lemma UpdateThenRemove(m: map<string, Entry>, e: Entry, slug: string)
    ensures e.mark.slug != slug ==> m[e.mark.slug := e] - {slug} == (m - {slug})[e.mark.slug := e]
    ensures e.mark.slug == slug && slug !in m ==> m[e.mark.slug := e] - {slug} == m
  {
  }

  /** No entry of another slug carries the id. */
  predicate Fresh(held: map<string, Entry>, mark: Mark) {
    forall s | s in held && s != mark.slug :: held[s].mark.id != mark.id
  }

  lemma IndexMatches(rs: seq<Region>, slug: string)
    ensures EntryIndex(RegionEntries(rs), slug) == RegionIndex(rs, slug)
  {
    var es := RegionEntries(rs);
    var i, k := RegionIndex(rs, slug), EntryIndex(es, slug);
    assert i < |rs| ==> es[i].mark.slug == slug;
    assert k < |es| ==> rs[k].mark.slug == slug;
  }

  lemma UpdatedEntries(rs: seq<Region>, total: nat, mark: Mark, lines: seq<string>)
    ensures RegionEntries(Updated(rs, total, mark, lines)) == PutEntry(RegionEntries(rs), Entry(mark, lines))
  {
    IndexMatches(rs, mark.slug);
  }

  /** Among entries of distinct slugs: fresh in the map is fresh at every other position. */
  lemma FreshAmong(es: seq<Entry>, mark: Mark)
    requires DistinctSlugs(es)
    ensures var k := EntryIndex(es, mark.slug);
            Fresh(BySlug(es), mark) <==> forall j | 0 <= j < |es| && j != k :: es[j].mark.id != mark.id
  {
    hide BySlug;
    SlugsAmong(es);
    var k := EntryIndex(es, mark.slug);
    if Fresh(BySlug(es), mark) {
      forall j | 0 <= j < |es| && j != k ensures es[j].mark.id != mark.id {
        assert es[j].mark.slug in BySlug(es);
        assert es[j].mark.slug != mark.slug;
      }
    } else {
      var s :| s in BySlug(es) && s != mark.slug && BySlug(es)[s].mark.id == mark.id;
      var j :| 0 <= j < |es| && es[j] == BySlug(es)[s];
      assert j != k;
    }
  }

  lemma FreshRegion(rs: seq<Region>, mark: Mark)
    requires DistinctSlugs(RegionEntries(rs))
    ensures FreshFor(rs, mark) <==> Fresh(BySlug(RegionEntries(rs)), mark)
  {
    hide BySlug, Fresh;
    IndexMatches(rs, mark.slug);
    FreshAmong(RegionEntries(rs), mark);
    assert forall i | 0 <= i < |rs| :: RegionEntries(rs)[i].mark == rs[i].mark;
  }

  lemma WithoutEntries(rs: seq<Region>, slug: string)
    ensures RegionEntries(Without(rs, slug)) == DropEntry(RegionEntries(rs), slug)
  {
    hide EntryIndex, RegionIndex;
    IndexMatches(rs, slug);
    var i, left, drop := RegionIndex(rs, slug), Without(rs, slug), DropEntry(RegionEntries(rs), slug);
    if i < |rs| {
      forall j | 0 <= j < |left| ensures RegionEntries(left)[j] == drop[j] {
        assert j < i ==> left[j] == rs[j];
        assert j >= i ==> left[j].mark == rs[j + 1].mark && left[j].lines == rs[j + 1].lines;
      }
      assert RegionEntries(left) == drop;
    }
  }

  lemma UpsertedAt(ms: seq<BlockMember>, mark: Mark, lines: seq<string>)
    requires DistinctSlugs(MemberEntries(ms))
    ensures var k, us := EntryIndex(MemberEntries(ms), mark.slug), Upserted(ms, mark, lines);
            us == if k < |ms| then ms[k := BlockMember(mark, lines)] else ms + [BlockMember(mark, lines)]
  {
    var es := MemberEntries(ms);
    var k := EntryIndex(es, mark.slug);
    assert forall i | 0 <= i < |ms| :: es[i].mark == ms[i].mark;
    if k < |ms| {
      assert ms[k] in ms;
      assert forall i | 0 <= i < |ms| && i != k :: ms[i].mark.slug != mark.slug;
    } else {
      forall m | m in ms ensures m.mark.slug != mark.slug {
      }
    }
  }

  lemma UpsertedEntries(ms: seq<BlockMember>, mark: Mark, lines: seq<string>)
    requires DistinctSlugs(MemberEntries(ms)) && DistinctMembers(ms)
    ensures MemberEntries(Upserted(ms, mark, lines)) == PutEntry(MemberEntries(ms), Entry(mark, lines))
    ensures DistinctMembers(Upserted(ms, mark, lines)) <==> Fresh(BySlug(MemberEntries(ms)), mark)
  {
    hide BySlug, Fresh, Upserted, DistinctMembers, EntryIndex;
    UpsertedAt(ms, mark, lines);
    UpsertedDistinct(ms, mark, lines);
  }

  lemma UpsertedDistinct(ms: seq<BlockMember>, mark: Mark, lines: seq<string>)
    requires DistinctSlugs(MemberEntries(ms)) && DistinctMembers(ms)
    ensures DistinctMembers(Upserted(ms, mark, lines)) <==> Fresh(BySlug(MemberEntries(ms)), mark)
  {
    hide BySlug, Fresh, Upserted, EntryIndex, DistinctSlugs;
    var es, us := MemberEntries(ms), Upserted(ms, mark, lines);
    var k := EntryIndex(es, mark.slug);
    UpsertedAt(ms, mark, lines);
    FreshAmong(es, mark);
    assert forall i | 0 <= i < |ms| :: es[i].mark == ms[i].mark;
    assert us[k].mark == mark && forall j | 0 <= j < |ms| && j != k :: us[j] == ms[j];
    if DistinctMembers(us) {
      forall j | 0 <= j < |es| && j != k ensures es[j].mark.id != mark.id {
        assert us[j].mark.id != us[k].mark.id;
      }
    }
  }

  lemma {:induction false} WithoutMemberEntries(ms: seq<BlockMember>, slug: string)
    requires DistinctSlugs(MemberEntries(ms))
    ensures MemberEntries(WithoutMember(ms, slug)) == DropEntry(MemberEntries(ms), slug)
  {
    hide DropEntry;
    var es := MemberEntries(ms);
    if ms == [] {
      NoneDropped(es, slug);
    } else {
      assert es[1..] == MemberEntries(ms[1..]) && es[0] == Entry(ms[0].mark, ms[0].lines);
      DropNext(es, slug);
      assert DistinctSlugs(es[1..]);
      WithoutMemberEntries(ms[1..], slug);
      if ms[0].mark.slug == slug {
        forall j | 0 <= j < |es| - 1 ensures es[1..][j].mark.slug != slug {
          assert es[0].mark.slug != es[j + 1].mark.slug;
        }
        NoneDropped(es[1..], slug);
      }
    }
  }

  lemma NoneDropped(es: seq<Entry>, slug: string)
    requires forall j | 0 <= j < |es| :: es[j].mark.slug != slug
    ensures DropEntry(es, slug) == es
  {
  }

  // -- regions -------------------------------------------------------------------------------

  lemma PutKeepsLoose(items: seq<Item>, mark: Mark, lines: seq<string>)
    ensures LooseOf(Put(items, mark, lines)) == LooseOf(items)
  {
    hide LooseOf;
    var k, put := IndexOf(items, mark.slug), Put(items, mark, lines);
    LooseAround(put, k);
    if k < |items| {
      LooseAround(items, k);
      assert put[..k] == items[..k] && put[k + 1..] == items[k + 1..];
    } else {
      assert put[..k] == items && put[k + 1..] == [];
      LooseOfNone();
    }
  }

  lemma PutIsValid(items: seq<Item>, mark: Mark, lines: seq<string>)
    requires Valid(items) && IsRegionText(mark, lines) && NoBlockEdge(lines)
    ensures Valid(Put(items, mark, lines))
    ensures BlockOf(Put(items, mark, lines)) == BlockOf(items)
    ensures LooseOf(Put(items, mark, lines)) == LooseOf(items)
  {
    hide KindOf, IsRegionText, NoBlockEdge, LooseOf, RegionShaped;
    var k, put := IndexOf(items, mark.slug), Put(items, mark, lines);
    PutIsWise(items, mark, lines);
    assert BlockShaped(Owned(mark, lines));
    assert forall i | 0 <= i < |items| && i != k :: put[i] == items[i];
    PutKeepsLoose(items, mark, lines);
    var b, b' := BlockIndex(items), BlockIndex(put);
    assert b < |items| ==> put[b] == items[b];
  }

  lemma LooseOfNone()
    ensures LooseOf([]) == []
  {
  }

  lemma DropIsValid(items: seq<Item>, slug: string)
    requires Valid(items)
    ensures Valid(Drop(items, slug))
    ensures BlockOf(Drop(items, slug)) == BlockOf(items)
    ensures LooseOf(Drop(items, slug)) == LooseOf(items)
  {
    hide KindOf, IsRegionText, LooseOf, RegionShaped, BlockShaped;
    var k, drop := IndexOf(items, slug), Drop(items, slug);
    if k < |items| {
      LooseAround(items, k);
      LooseSum(items[..k], items[k + 1..]);
      forall i, j | 0 <= i < j < |drop| ensures !drop[i].Block? || !drop[j].Block? {
        assert !items[if i < k then i else i + 1].Block? || !items[if j < k then j else j + 1].Block?;
      }
      var b, b' := BlockIndex(items), BlockIndex(drop);
      if b < |items| {
        assert drop[if b < k then b else b - 1] == items[b];
      }
      if b' < |drop| {
        assert items[if b' < k then b' else b' + 1] == drop[b'];
      }
    }
  }

  lemma RegionWritten(t: Text, mark: Mark, lines: seq<string>)
    requires InOrder(t) && IsRegionText(mark, lines) && NoBlockEdge(lines)
    ensures ReplaceRegion(t, mark.slug, lines).Ok?
    ensures var u := ReplaceRegion(t, mark.slug, lines).value;
            && FindMembers(u.lines) == FindMembers(t.lines)
            && (FindRegions(u.lines).Ok? <==> Fresh(RegionMap(t), mark))
            && (FindRegions(u.lines).Ok? ==>
                  && InOrder(u)
                  && RegionMap(u) == RegionMap(t)[mark.slug := Entry(mark, lines)]
                  && Unmanaged(u) == Unmanaged(t))
  {
    hide KindOf, Flat, RegionsOf, LooseOf, IsRegionText, NoBlockEdge, Put, FindRegions, FindMembers, Unmanaged, Apart, Updated, BySlug, Span;
    var items := ItemsOfCrontab(t);
    var rs := RegionsOf(items, 0);
    FoundDistinct(t);
    var put, u := Put(items, mark, lines), PutText(t, items, mark, lines);
    ValidIsWise(items);
    ReplaceOnItems(t, items, mark, lines);
    PutIsValid(items, mark, lines);
    BlockOfItems(put);
    ReplaceThenFind(t, mark, lines);
    UpdatedDistinct(rs, |t.lines|, mark, lines);
    UpdatedEntries(rs, |t.lines|, mark, lines);
    FreshRegion(rs, mark);
    RegionMapIs(t);
    RegionMapIs(u);
    if FreshFor(rs, mark) {
      ValidIsWise(put);
      ReadsAgree(u, put);
      FoundDistinct(u);
      ShowsFrom(u, put);
      PutIsUpdate(RegionEntries(rs), Entry(mark, lines));
    }
  }

  lemma FoundDistinct(t: Text)
    ensures FindRegions(t.lines).Ok? ==> DistinctIds(FindRegions(t.lines).value)
    ensures FindMembers(t.lines).Ok? ==> DistinctMembers(FindMembers(t.lines).value)
  {
    hide KindOf, DistinctIds;
  }

  lemma RegionMapIs(t: Text)
    ensures FindRegions(t.lines).Ok? ==> RegionMap(t) == BySlug(RegionEntries(FindRegions(t.lines).value))
    ensures FindMembers(t.lines).Ok? ==> MemberMap(t) == BySlug(MemberEntries(FindMembers(t.lines).value))
  {
    hide KindOf;
  }

  lemma RegionRemoved(t: Text, slug: string)
    requires InOrder(t)
    ensures RemoveRegion(t, slug).Ok?
    ensures var u := RemoveRegion(t, slug).value;
            && InOrder(u)
            && FindMembers(u.lines) == FindMembers(t.lines)
            && RegionMap(u) == RegionMap(t) - {slug}
            && Unmanaged(u) == Unmanaged(t)
  {
    hide KindOf, Flat, RegionsOf, LooseOf, Drop, FindRegions, FindMembers, Unmanaged, Apart, Without, BySlug, Span;
    var items := ItemsOfCrontab(t);
    var rs := RegionsOf(items, 0);
    FoundDistinct(t);
    ValidIsWise(items);
    RemoveOnItems(t, items, slug);
    var drop, u := Drop(items, slug), RemoveRegion(t, slug).value;
    DropIsValid(items, slug);
    RemoveThenFind(t, slug);
    DropRegions(items, slug);
    FoundDistinct(u);
    ShowsFrom(u, drop);
    WithoutEntries(rs, slug);
    DropIsRemoval(RegionEntries(rs), slug);
    DropIsDistinct(RegionEntries(rs), slug);
    RegionMapIs(t);
    RegionMapIs(u);
  }

  // -- members -------------------------------------------------------------------------------

  /** The items with the block rewritten, or put last where there was none. */
  function SetBlock(items: seq<Item>, block: seq<string>): seq<Item> {
    var k := BlockIndex(items);
    if k < |items| then items[k := Block(block)] else items + [Block(block)]
  }

  function CutBlock(items: seq<Item>): seq<Item> {
    var k := BlockIndex(items);
    if k < |items| then items[..k] + items[k + 1..] else items
  }

  lemma SetBlockIsValid(items: seq<Item>, block: seq<string>)
    requires Valid(items) && IsBlockText(block) && NoRegionMarker(block)
    ensures Valid(SetBlock(items, block))
    ensures LooseOf(SetBlock(items, block)) == LooseOf(items)
  {
    hide KindOf, IsBlockText, NoRegionMarker, LooseOf, RegionShaped, BlockShaped;
    BlockIsShaped(block);
    var k, set_ := BlockIndex(items), SetBlock(items, block);
    assert forall i | 0 <= i < |items| && i != k :: set_[i] == items[i];
    forall i | i in set_ ensures RegionShaped(i) && BlockShaped(i) {
      assert i == Block(block) || i in items;
    }
    forall i | 0 <= i < |set_| && i != k ensures !set_[i].Block? {
      assert k < |items| ==> !items[i].Block? by {
        if i < k {
        } else if k < |items| {
          assert !items[k].Block? || !items[i].Block?;
        }
      }
    }
    LooseAround(set_, k);
    if k < |items| {
      LooseAround(items, k);
      assert set_[..k] == items[..k] && set_[k + 1..] == items[k + 1..];
    } else {
      assert set_[..k] == items && set_[k + 1..] == [];
      LooseOfNone();
    }
  }

  lemma CutBlockIsValid(items: seq<Item>)
    requires Valid(items)
    ensures Valid(CutBlock(items))
    ensures LooseOf(CutBlock(items)) == LooseOf(items)
  {
    hide KindOf, LooseOf, RegionShaped, BlockShaped;
    var k, cut := BlockIndex(items), CutBlock(items);
    if k < |items| {
      LooseAround(items, k);
      LooseSum(items[..k], items[k + 1..]);
      forall i | 0 <= i < |cut| ensures !cut[i].Block? {
        assert cut[i] == items[if i < k then i else i + 1];
      }
    }
  }

  /** The region list does not depend on the block's lines, except for where it stands. */
  lemma BlockKeepsEntries(items: seq<Item>, block: seq<string>)
    ensures RegionEntries(RegionsOf(SetBlock(items, block), 0)) == RegionEntries(RegionsOf(items, 0))
    ensures RegionEntries(RegionsOf(CutBlock(items), 0)) == RegionEntries(RegionsOf(items, 0))
  {
    hide KindOf, RegionsOf, Flat;
    var k, set_, cut := BlockIndex(items), SetBlock(items, block), CutBlock(items);
    if k < |items| {
      var at := |Flat(items[..k])|;
      var rest := items[k + 1..];
      BlockSkipped(items, k);
      BlockSkipped(set_, k);
      assert set_[..k] == items[..k] && set_[k + 1..] == rest;
      RegionsSum(items[..k], rest, 0);
      RegionsMove(rest, at, at + |items[k].lines|);
      RegionsMove(rest, at, at + |block|);
    } else {
      RegionsSum(items, [Block(block)], 0);
      OneItem(Block(block), |Flat(items)|);
    }
  }

  lemma BlockSkipped(items: seq<Item>, k: nat)
    requires k < |items| && items[k].Block?
    ensures RegionsOf(items, 0)
         == RegionsOf(items[..k], 0) + RegionsOf(items[k + 1..], |Flat(items[..k])| + |items[k].lines|)
  {
    hide KindOf, RegionsOf, Flat;
    var at := |Flat(items[..k])|;
    RegionsSum(items[..k], items[k..], 0);
    assert items[..k] + items[k..] == items && items[k..] == [items[k]] + items[k + 1..];
    RegionsSum([items[k]], items[k + 1..], at);
    OneItem(items[k], at);
    FlatOfOne(items[k]);
  }

  lemma EntriesDistinct(a: seq<Region>, b: seq<Region>)
    requires RegionEntries(a) == RegionEntries(b) && DistinctIds(a)
    ensures DistinctIds(b)
  {
    assert forall i | 0 <= i < |a| :: RegionEntries(a)[i].mark == a[i].mark && RegionEntries(b)[i].mark == b[i].mark;
  }

  lemma BlockFlat(items: seq<Item>, k: nat, block: seq<string>)
    requires k < |items| && items[k].Block? && items[k].lines != []
    ensures var b, lines := |Flat(items[..k])|, Flat(items);
            var e := b + |items[k].lines| - 1;
            && b <= e < |lines|
            && Flat(items[k := Block(block)]) == lines[..b] + block + lines[e + 1..]
            && Flat(items[..k] + items[k + 1..]) == lines[..b] + lines[e + 1..]
  {
    hide Flat;
    var set_ := items[k := Block(block)];
    FlatAround(items, k);
    FlatAround(set_, k);
    assert set_[..k] == items[..k] && set_[k + 1..] == items[k + 1..];
    FlatSum(items[..k], items[k + 1..]);
    Around3(Flat(items[..k]), items[k].lines, Flat(items[k + 1..]));
  }

  lemma Around3<T>(a: seq<T>, b: seq<T>, c: seq<T>)
    ensures (a + b + c)[..|a|] == a && (a + b + c)[|a| + |b|..] == c
  {
  }

  lemma SetBlockFlat(items: seq<Item>, block: seq<string>)
    requires Valid(items)
    ensures BlockOf(items).None? ==> Flat(SetBlock(items, block)) == Flat(items) + block
    ensures BlockOf(items).Some? ==>
              var (b, e), lines := Span(items).value, Flat(items);
              && b <= e < |lines|
              && Flat(SetBlock(items, block)) == lines[..b] + block + lines[e + 1..]
              && Flat(CutBlock(items)) == lines[..b] + lines[e + 1..]
  {
    hide KindOf, Flat, RegionShaped;
    var k, set_ := BlockIndex(items), SetBlock(items, block);
    if k < |items| {
      assert |items[k].lines| >= 2 by {
        assert BlockShaped(items[k]);
      }
      BlockFlat(items, k, block);
    } else {
      FlatSum(items, [Block(block)]);
      FlatOfOne(Block(block));
    }
  }

  /** A rewritten block leaves regions and unmanaged lines alone. */
  lemma BlockRewritten(t: Text, items: seq<Item>, u: Text, items': seq<Item>)
    requires InOrder(t) && Shows(t, items)
    requires Valid(items') && Flat(items') == u.lines
    requires RegionEntries(RegionsOf(items', 0)) == RegionEntries(RegionsOf(items, 0))
    requires LooseOf(items') == LooseOf(items)
    ensures Shows(u, items')
    ensures RegionMap(u) == RegionMap(t) && Unmanaged(u) == Unmanaged(t)
    ensures FindMembers(u.lines).Ok? && DistinctSlugs(MemberEntries(FindMembers(u.lines).value)) ==> InOrder(u)
  {
    hide KindOf, Flat, RegionsOf, LooseOf, FindRegions, FindMembers, Unmanaged, Apart, BySlug, Span, Valid, BlockOf;
    FoundDistinct(t);
    EntriesDistinct(RegionsOf(items, 0), RegionsOf(items', 0));
    ShowsFrom(u, items');
    RegionMapIs(t);
    RegionMapIs(u);
  }

  lemma MembersUnmarked(ms: seq<BlockMember>)
    requires forall m | m in ms :: NoRegionMarker(m.lines)
    ensures NoRegionMarker(Concat(LinesOfMembers(ms)))
  {
    hide KindOf;
    if ms != [] {
      assert LinesOfMembers(ms)[1..] == LinesOfMembers(ms[1..]);
      MembersUnmarked(ms[1..]);
      assert NoRegionMarker(ms[0].lines);
    }
  }

  lemma {:induction false} GatheredFrom(lines: seq<string>)
    requires NoRegionMarker(lines)
    ensures forall m | m in Gather(lines) :: NoRegionMarker(m.lines)
  {
    hide KindOf, Gather;
    if lines == [] {
      NoLines();
    } else {
      var front, line := lines[..|lines| - 1], lines[|lines| - 1];
      assert lines == front + [line] && line in lines;
      GatheredFrom(front);
      GatherNext(front, line);
      if !KindOf(line).Member? && Gather(front) != [] {
        assert Gather(front)[|Gather(front)| - 1] in Gather(front);
      }
    }
  }

  lemma WrittenIsBlockText(ms: seq<BlockMember>)
    requires AllGathered(ms) && forall m | m in ms :: NoRegionMarker(m.lines)
    ensures var block := BlockLines(LinesOfMembers(ms));
            IsBlockText(block) && NoRegionMarker(block)
  {
    hide KindOf, Concat;
    var body := Concat(LinesOfMembers(ms));
    var block := BlockLines(LinesOfMembers(ms));
    BlockEdgesAreRead();
    FixedLinesArePlain();
    ConcatHasNoBegin(ms);
    MembersUnmarked(ms);
    assert block[1..|block| - 1] == [NOTICE] + body;
    forall l | l in block ensures !IsRegionMarker(l) {
      assert l in body || l == BLOCK_BEGIN || l == NOTICE || l == BLOCK_END;
    }
  }

  /** The members of a crontab in order come from inside the block, so none holds a region marker. */
  lemma MembersOfCrontab(t: Text, items: seq<Item>)
    requires InOrder(t) && Shows(t, items)
    ensures AllGathered(FindMembers(t.lines).value)
    ensures forall m | m in FindMembers(t.lines).value :: NoRegionMarker(m.lines)
  {
    hide KindOf, Gather, Flat, RegionsOf, NoRegionMarker, Unmanaged, LooseOf, Apart, FindRegions, FindMembers, AllGathered;
    var k := BlockIndex(items);
    if k < |items| {
      assert BlockShaped(items[k]) && RegionShaped(items[k]);
      var block := items[k].lines;
      var inner := block[1..|block| - 1];
      GatherIsWell(inner);
      PartUnmarked(block, 1, |block| - 1);
      GatheredFrom(inner);
    } else {
      NoneGathered();
    }
  }

  lemma NoneGathered()
    ensures AllGathered([])
  {
  }

  lemma PartUnmarked(lines: seq<string>, i: nat, j: nat)
    requires NoRegionMarker(lines) && i <= j <= |lines|
    ensures NoRegionMarker(lines[i..j])
  {
    hide KindOf;
  }

  lemma UpsertedBlock(ms: seq<BlockMember>, mark: Mark, lines: seq<string>)
    requires AllGathered(ms) && forall m | m in ms :: NoRegionMarker(m.lines)
    requires IsMemberText(mark, lines) && NoRegionMarker(lines)
    ensures var block := BlockLines(LinesOfMembers(Upserted(ms, mark, lines)));
            IsBlockText(block) && NoRegionMarker(block)
  {
    hide KindOf, IsMemberText, NoRegionMarker, AllGathered, Upserted, BlockLines, IsBlockText;
    UpsertedGathered(ms, mark, lines);
    UpsertedUnmarked(ms, mark, lines);
    WrittenIsBlockText(Upserted(ms, mark, lines));
  }

  /** The upserted text is the item list with its block set. */
  lemma UpsertOnItems(t: Text, items: seq<Item>, mark: Mark, lines: seq<string>)
    requires InOrder(t) && Shows(t, items) && IsMemberText(mark, lines) && NoRegionMarker(lines)
    ensures UpsertMember(t, mark.slug, lines).Ok? && FindMembers(t.lines).Ok?
    ensures var set_ := SetBlock(items, BlockLines(LinesOfMembers(Upserted(FindMembers(t.lines).value, mark, lines))));
            && Valid(set_) && Flat(set_) == UpsertMember(t, mark.slug, lines).value.lines
            && LooseOf(set_) == LooseOf(items)
            && RegionEntries(RegionsOf(set_, 0)) == RegionEntries(RegionsOf(items, 0))
  {
    hide KindOf, Flat, RegionsOf, LooseOf, IsMemberText, FindRegions, FindMembers, Unmanaged, Apart, RegionMap,
         Upserted, BlockLines, Valid, IsBlockText, NoRegionMarker, AllGathered, SetBlock, CutBlock, InOrder, MemberEntries, DistinctSlugs,
         RegionEntries, BlockIndex, BlockBounds, UpsertMember, LinesOfMembers, BlockOf, Span;
    MembersFound(t);
    var ms := FindMembers(t.lines).value;
    MembersOfCrontab(t, items);
    UpsertedBlock(ms, mark, lines);
    var block := BlockLines(LinesOfMembers(Upserted(ms, mark, lines)));
    ItemsShown(t, items);
    SetBlockIsValid(items, block);
    SetBlockFlat(items, block);
    BlockKeepsEntries(items, block);
    UpsertText(t, mark, lines);
  }

  lemma ItemsShown(t: Text, items: seq<Item>)
    requires Shows(t, items)
    ensures Valid(items) && Flat(items) == t.lines && BlockBounds(t.lines) == Ok(Span(items))
    ensures BlockOf(items).Some? <==> Span(items).Some?
  {
    hide KindOf, Flat, RegionsOf, Valid;
    BlockOfItems(items);
  }

  /** Upserting leaves regions and unmanaged lines alone. */
  lemma UpsertStaysInBlock(t: Text, mark: Mark, lines: seq<string>)
    requires InOrder(t) && IsMemberText(mark, lines) && NoRegionMarker(lines)
    ensures UpsertMember(t, mark.slug, lines).Ok?
    ensures var u := UpsertMember(t, mark.slug, lines).value;
            && FindRegions(u.lines).Ok?
            && RegionMap(u) == RegionMap(t) && Unmanaged(u) == Unmanaged(t)
            && (FindMembers(u.lines).Ok? && DistinctSlugs(MemberEntries(FindMembers(u.lines).value)) ==> InOrder(u))
  {
    hide KindOf, Flat, RegionsOf, LooseOf, IsMemberText, FindRegions, FindMembers, Unmanaged, Apart, RegionMap,
         Upserted, BlockLines, Valid, NoRegionMarker, SetBlock, InOrder, MemberEntries, DistinctSlugs, RegionEntries, UpsertMember, LinesOfMembers;
    var items := ItemsOfCrontab(t);
    UpsertOnItems(t, items, mark, lines);
    var set_ := SetBlock(items, BlockLines(LinesOfMembers(Upserted(FindMembers(t.lines).value, mark, lines))));
    BlockRewritten(t, items, UpsertMember(t, mark.slug, lines).value, set_);
  }

  lemma MembersFound(t: Text)
    requires InOrder(t)
    ensures FindMembers(t.lines).Ok? && DistinctSlugs(MemberEntries(FindMembers(t.lines).value))
  {
  }

  lemma MemberWritten(t: Text, mark: Mark, lines: seq<string>)
    requires InOrder(t) && IsMemberText(mark, lines) && NoRegionMarker(lines)
    ensures UpsertMember(t, mark.slug, lines).Ok?
    ensures var u := UpsertMember(t, mark.slug, lines).value;
            && FindRegions(u.lines).Ok?
            && RegionMap(u) == RegionMap(t)
            && Unmanaged(u) == Unmanaged(t)
            && (FindMembers(u.lines).Ok? <==> Fresh(MemberMap(t), mark))
            && (FindMembers(u.lines).Ok? ==>
                  InOrder(u) && MemberMap(u) == MemberMap(t)[mark.slug := Entry(mark, lines)])
  {
    hide KindOf, IsMemberText, FindRegions, FindMembers, Unmanaged, RegionMap, MemberMap, BySlug,
         Upserted, NoRegionMarker, InOrder, DistinctMembers, Fresh;
    UpsertStaysInBlock(t, mark, lines);
    MembersFound(t);
    var ms := FindMembers(t.lines).value;
    var u := UpsertMember(t, mark.slug, lines).value;
    FoundDistinct(t);
    UpsertThenGather(t, mark, lines);
    UpsertedEntries(ms, mark, lines);
    PutIsUpdate(MemberEntries(ms), Entry(mark, lines));
    RegionMapIs(t);
    RegionMapIs(u);
  }

  lemma UpsertedUnmarked(ms: seq<BlockMember>, mark: Mark, lines: seq<string>)
    requires NoRegionMarker(lines) && forall m | m in ms :: NoRegionMarker(m.lines)
    ensures forall m | m in Upserted(ms, mark, lines) :: NoRegionMarker(m.lines)
  {
    hide KindOf, NoRegionMarker;
    forall m | m in Upserted(ms, mark, lines) ensures NoRegionMarker(m.lines) {
      assert m == BlockMember(mark, lines) || m in ms;
    }
  }

  /** The upserted text, member list and all, in one formula for both cases. */
  lemma UpsertText(t: Text, mark: Mark, lines: seq<string>)
    requires FindMembers(t.lines).Ok?
    requires AllGathered(FindMembers(t.lines).value) && IsMemberText(mark, lines)
    ensures UpsertMember(t, mark.slug, lines).Ok?
    ensures var block := BlockLines(LinesOfMembers(Upserted(FindMembers(t.lines).value, mark, lines)));
            UpsertMember(t, mark.slug, lines).value.lines
            == match BlockBounds(t.lines).value
               case None => t.lines + block
               case Some((b, e)) => t.lines[..b] + block + t.lines[e + 1..]
  {
    hide KindOf, Gather, Concat, AllGathered;
    var ms := FindMembers(t.lines).value;
    UpsertedGathered(ms, mark, lines);
    if BlockBounds(t.lines).value.None? {
      assert LinesOfMembers(Upserted([], mark, lines)) == [lines];
    }
  }

  lemma MemberRemoved(t: Text, slug: string)
    requires InOrder(t)
    ensures RemoveMember(t, slug).Ok?
    ensures var u := RemoveMember(t, slug).value;
            && InOrder(u)
            && RegionMap(u) == RegionMap(t)
            && MemberMap(u) == MemberMap(t) - {slug}
            && Unmanaged(u) == Unmanaged(t)
  {
    hide KindOf, Flat, RegionsOf, LooseOf, FindRegions, FindMembers, Unmanaged, Apart, BySlug,
         WithoutMember, BlockLines, Valid, DistinctMembers, IsBlockText, NoRegionMarker, AllGathered, SetBlock, CutBlock;
    var items := ItemsOfCrontab(t);
    var ms := FindMembers(t.lines).value;
    FoundDistinct(t);
    MembersOfCrontab(t, items);
    WithoutGathered(ms, slug);
    var left := WithoutMember(ms, slug);
    WrittenIsBlockText(left);
    var block := BlockLines(LinesOfMembers(left));
    SetBlockIsValid(items, block);
    CutBlockIsValid(items);
    SetBlockFlat(items, block);
    BlockKeepsEntries(items, block);
    RemoveText(t, slug);
    RemoveThenGather(t, slug);
    var u := RemoveMember(t, slug).value;
    WithoutMemberEntries(ms, slug);
    DropIsRemoval(MemberEntries(ms), slug);
    DropIsDistinct(MemberEntries(ms), slug);
    RegionMapIs(t);
    RegionMapIs(u);
    if BlockBounds(t.lines).value.Some? {
      BlockRewritten(t, items, u, if left == [] then CutBlock(items) else SetBlock(items, block));
    }
  }

  lemma RemoveText(t: Text, slug: string)
    requires FindMembers(t.lines).Ok?
    ensures RemoveMember(t, slug).Ok?
    ensures var left := WithoutMember(FindMembers(t.lines).value, slug);
            match BlockBounds(t.lines).value
            case None => RemoveMember(t, slug).value == t
            case Some((b, e)) =>
              RemoveMember(t, slug).value.lines
              == if left == [] then t.lines[..b] + t.lines[e + 1..]
                 else t.lines[..b] + BlockLines(LinesOfMembers(left)) + t.lines[e + 1..]
  {
    hide KindOf, Gather, WithoutMember, BlockLines;
    if BlockBounds(t.lines).value.Some? {
      var (b, e) := BlockBounds(t.lines).value.value;
      assert t.lines[..b] + [] + t.lines[e + 1..] == t.lines[..b] + t.lines[e + 1..];
    }
  }
}
