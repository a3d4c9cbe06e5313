/**
 The shared block as an ordered map: what finding gives after upserting and removing, and
 that nothing outside the block moves.
 */
module BlockLaws {
  import opened Results
  import opened Faults
  import opened Texts
  import opened Markers
  import opened Blocks

  /** One member's lines: its identity comment, then lines that are neither identities nor block markers. */
  predicate IsMemberText(mark: Mark, lines: seq<string>) {
    && lines != []
    && KindOf(lines[0]) == Member(mark)
    && forall l | l in lines[1..] :: !KindOf(l).Member? && !IsBlockEdge(l)
  }

  /** What Gather makes of its members: identity first, no other identity, no begin marker. */
  predicate WellGathered(m: BlockMember) {
    && m.lines != []
    && KindOf(m.lines[0]) == Member(m.mark)
    && (forall l | l in m.lines[1..] :: !KindOf(l).Member?)
    && (forall l | l in m.lines :: !KindOf(l).BlockBegin?)
  }

  predicate AllGathered(ms: seq<BlockMember>) {
    forall m | m in ms :: WellGathered(m)
  }

  predicate NoBegin(lines: seq<string>) {
    forall l | l in lines :: !KindOf(l).BlockBegin?
  }

  lemma {:induction false} GatherIsWell(lines: seq<string>)
    requires NoBegin(lines)
    ensures AllGathered(Gather(lines))
  {
    hide KindOf;
    if lines != [] {
      var front, line := lines[..|lines| - 1], lines[|lines| - 1];
      GatherIsWell(front);
      var before := Gather(front);
      if !KindOf(line).Member? && before != [] {
        var last := before[|before| - 1];
        assert WellGathered(last);
        var more := BlockMember(last.mark, last.lines + [line]);
        assert more.lines[1..] == last.lines[1..] + [line];
        assert WellGathered(more);
      } else if KindOf(line).Member? {
        assert WellGathered(BlockMember(KindOf(line).mark, [line]));
      }
    }
  }

  /** An identity comment and the lines up to the next one. */
  predicate OneMember(m: BlockMember) {
    && m.lines != [] && KindOf(m.lines[0]) == Member(m.mark)
    && forall l | l in m.lines[1..] :: !KindOf(l).Member?
  }

  /** From line k on, where the first identity stands, the lines are those members one after another. */
  predicate Gathers(lines: seq<string>, k: nat, ms: seq<BlockMember>) {
    && k <= |lines| && (forall l | l in lines[..k] :: !KindOf(l).Member?) && (k < |lines| ==> KindOf(lines[k]).Member?)
    && lines[k..] == Concat(LinesOfMembers(ms)) && forall m | m in ms :: OneMember(m)
  }

  /** The members are all there is from the first identity on; what comes before belongs to none. */
  lemma {:induction false} GatherMeans(lines: seq<string>) returns (k: nat)
    ensures Gathers(lines, k, Gather(lines))
  {
    hide KindOf, Gather, Concat, OneMember, Gathers;
    if lines == [] {
      k := 0;
      NothingGathered();
    } else {
      var front, line := lines[..|lines| - 1], lines[|lines| - 1];
      assert lines == front + [line];
      k := GatherMeans(front);
      GatherNext(front, line);
      if KindOf(line).Member? {
        IdentityGathers(front, line, k, Gather(front));
      } else if Gather(front) == [] {
        k := LooseGathers(front, line, k);
      } else {
        MoreGathers(front, line, k, Gather(front));
      }
    }
  }

  lemma NothingGathered()
    ensures Gathers([], 0, Gather([]))
  {
  }

  lemma IdentityGathers(front: seq<string>, line: string, k: nat, ms: seq<BlockMember>)
    requires Gathers(front, k, ms) && KindOf(line).Member?
    ensures Gathers(front + [line], k, ms + [BlockMember(KindOf(line).mark, [line])])
  {
    hide KindOf, Concat, OneMember;
    var one, lines := BlockMember(KindOf(line).mark, [line]), front + [line];
    AloneIsOne(one.mark, line);
    JoinedSum(ms, [one]);
    assert lines[k..] == front[k..] + [line] && lines[..k] == front[..k];
  }

  lemma LooseGathers(front: seq<string>, line: string, k: nat) returns (k': nat)
    requires Gathers(front, k, []) && !KindOf(line).Member?
    ensures Gathers(front + [line], k', [])
  {
    hide KindOf, OneMember;
    k' := |front| + 1;
    NothingJoined();
    assert front[k..] == [] && front[..k] == front && (front + [line])[..k'] == front + [line];
  }

  lemma MoreGathers(front: seq<string>, line: string, k: nat, ms: seq<BlockMember>)
    requires Gathers(front, k, ms) && ms != [] && !KindOf(line).Member?
    ensures var n := |ms| - 1; Gathers(front + [line], k, ms[..n] + [BlockMember(ms[n].mark, ms[n].lines + [line])])
  {
    hide KindOf, Concat, OneMember;
    var n, lines := |ms| - 1, front + [line];
    var more := BlockMember(ms[n].mark, ms[n].lines + [line]);
    assert ms == ms[..n] + [ms[n]] && ms[n] in ms;
    GrownIsOne(ms[n], line);
    JoinedSum(ms[..n], [ms[n]]);
    JoinedSum(ms[..n], [more]);
    OneHasLines(ms[n]);
    assert lines[k..] == front[k..] + [line] && lines[..k] == front[..k];
  }

  lemma OneHasLines(m: BlockMember)
    requires OneMember(m)
    ensures Concat(LinesOfMembers([m])) == m.lines != []
  {
    hide KindOf;
    assert LinesOfMembers([m]) == [m.lines] && [m.lines][1..] == [];
  }

  lemma NothingJoined()
    ensures Concat(LinesOfMembers([])) == []
  {
  }

  lemma AloneIsOne(mark: Mark, line: string)
    requires KindOf(line) == Member(mark)
    ensures OneMember(BlockMember(mark, [line])) && Concat(LinesOfMembers([BlockMember(mark, [line])])) == [line]
  {
    hide KindOf;
    var ms := [BlockMember(mark, [line])];
    assert LinesOfMembers(ms) == [[line]] && [[line]][1..] == [];
  }

  lemma GrownIsOne(m: BlockMember, line: string)
    requires OneMember(m) && !KindOf(line).Member?
    ensures var more := BlockMember(m.mark, m.lines + [line]);
            OneMember(more) && Concat(LinesOfMembers([more])) == Concat(LinesOfMembers([m])) + [line]
  {
    hide KindOf;
    var more := BlockMember(m.mark, m.lines + [line]);
    assert more.lines[1..] == m.lines[1..] + [line];
    assert LinesOfMembers([more]) == [more.lines] && [more.lines][1..] == [];
    assert LinesOfMembers([m]) == [m.lines] && [m.lines][1..] == [];
  }

  lemma {:induction false} JoinedSum(a: seq<BlockMember>, b: seq<BlockMember>)
    ensures Concat(LinesOfMembers(a + b)) == Concat(LinesOfMembers(a)) + Concat(LinesOfMembers(b))
  {
    if a == [] {
      assert a + b == b;
    } else {
      assert LinesOfMembers(a + b)[1..] == LinesOfMembers(a[1..] + b) && (a + b)[0] == a[0];
      assert LinesOfMembers(a)[1..] == LinesOfMembers(a[1..]);
      JoinedSum(a[1..], b);
    }
  }

  /** A stretch that opens with an identity gathers on its own. */
  lemma {:induction false} GatherSum(a: seq<string>, b: seq<string>)
    requires b == [] || KindOf(b[0]).Member?
    ensures Gather(a + b) == Gather(a) + Gather(b)
    ensures b != [] ==> Gather(b) != []
    decreases |b|
  {
    hide KindOf;
    if b == [] {
      assert a + b == a;
    } else {
      var front, line := b[..|b| - 1], b[|b| - 1];
      assert (a + b)[..|a + b| - 1] == a + front;
      GatherSum(a, front);
      if |b| == 1 {
        assert a + front == a;
      }
    }
  }

  lemma {:induction false} GatherOne(mark: Mark, lines: seq<string>)
    requires lines != [] && KindOf(lines[0]) == Member(mark)
    requires forall l | l in lines[1..] :: !KindOf(l).Member?
    ensures Gather(lines) == [BlockMember(mark, lines)]
    decreases |lines|
  {
    hide KindOf, Gather;
    var front, line := lines[..|lines| - 1], lines[|lines| - 1];
    GatherNext(front, line);
    assert lines == front + [line];
    if |lines| == 1 {
      NoLines();
    } else {
      assert front[1..] == lines[1..][..|lines| - 2];
      GatherOne(mark, front);
      assert line in lines[1..];
    }
  }

  /** Writing members out and gathering them again is the identity. */
  lemma {:induction false} GatherOfMembers(ms: seq<BlockMember>)
    requires AllGathered(ms)
    ensures Gather(Concat(LinesOfMembers(ms))) == ms
    ensures ms == [] ==> Concat(LinesOfMembers(ms)) == []
    ensures ms != [] ==> Concat(LinesOfMembers(ms)) != [] && KindOf(Concat(LinesOfMembers(ms))[0]).Member?
  {
    hide KindOf;
    if ms != [] {
      assert WellGathered(ms[0]);
      assert LinesOfMembers(ms)[1..] == LinesOfMembers(ms[1..]);
      GatherOfMembers(ms[1..]);
      GatherOne(ms[0].mark, ms[0].lines);
      GatherSum(ms[0].lines, Concat(LinesOfMembers(ms[1..])));
    }
  }

  lemma {:induction false} ConcatHasNoBegin(ms: seq<BlockMember>)
    requires AllGathered(ms)
    ensures NoBegin(Concat(LinesOfMembers(ms)))
  {
    hide KindOf;
    if ms != [] {
      assert WellGathered(ms[0]);
      assert LinesOfMembers(ms)[1..] == LinesOfMembers(ms[1..]);
      ConcatHasNoBegin(ms[1..]);
    }
  }

  /** The members of a block, whether or not their ids are distinct. */
  function GatheredIn(lines: seq<string>): seq<BlockMember> {
    match BlockBounds(lines)
    case Ok(Some((b, e))) => Gather(lines[b + 1..e])
    case _ => []
  }

  /** A block written from gathered members, between lines with no block marker, reads back as those members. */
  lemma WrittenBlock(before: seq<string>, ms: seq<BlockMember>, after: seq<string>)
    requires NoBlockEdge(before) && NoBlockEdge(after) && AllGathered(ms)
    ensures var block := BlockLines(LinesOfMembers(ms));
            && BlockBounds(before + block + after) == Ok(Some((|before|, |before| + |block| - 1)))
            && FindMembers(before + block + after) == CheckMembers(ms)
            && GatheredIn(before + block + after) == ms
  {
    hide KindOf, Gather, Concat;
    var body := Concat(LinesOfMembers(ms));
    var block := BlockLines(LinesOfMembers(ms));
    var lines := before + block + after;
    var b, e := |before|, |before| + |block| - 1;
    BlockEdgesAreRead();
    FixedLinesArePlain();
    ConcatHasNoBegin(ms);
    forall i | BeginAt(lines, i) ensures i == b {
      EdgePlace(before, body, after, i);
    }
    forall i | EndAt(lines, i) ensures b < i <= e {
      EdgePlace(before, body, after, i);
    }
    assert lines[b] == BLOCK_BEGIN && lines[e] == BLOCK_END;
    assert IsBlockAt(lines, b, e);
    BoundsMean(lines);
    assert lines[b + 1..e] == [NOTICE] + body;
    GatherOfMembers(ms);
    GatherSum([NOTICE], body);
    NothingFrom(NOTICE);
    assert Gather(lines[b + 1..e]) == ms;
  }

  lemma NothingFrom(line: string)
    requires !KindOf(line).Member?
    ensures Gather([line]) == []
  {
    hide KindOf;
    assert [line][..0] == [];
  }

  lemma EdgePlace(before: seq<string>, body: seq<string>, after: seq<string>, i: nat)
    requires NoBlockEdge(before) && NoBlockEdge(after) && NoBegin(body)
    requires i < |before| + |body| + |after| + 3
    requires KindOf(BLOCK_BEGIN) == BlockBegin && KindOf(BLOCK_END) == BlockEnd && KindOf(NOTICE) == Plain
    ensures var lines := before + ([BLOCK_BEGIN, NOTICE] + body + [BLOCK_END]) + after;
            && (BeginAt(lines, i) ==> i == |before|)
            && (EndAt(lines, i) ==> |before| < i <= |before| + |body| + 2)
  {
    hide KindOf;
    var lines := before + ([BLOCK_BEGIN, NOTICE] + body + [BLOCK_END]) + after;
    var n := |before|;
    if i < n {
      assert lines[i] == before[i] && before[i] in before;
    } else if i >= n + |body| + 3 {
      assert lines[i] == after[i - n - |body| - 3] && lines[i] in after;
    } else if n + 2 <= i < n + 2 + |body| {
      assert lines[i] == body[i - n - 2] && lines[i] in body;
    }
  }

  /** What surrounds the block holds no block marker, and its inside no begin marker. */
  lemma AroundBlock(lines: seq<string>, b: nat, e: nat)
    requires IsBlockAt(lines, b, e)
    ensures NoBlockEdge(lines[..b]) && NoBlockEdge(lines[e + 1..]) && NoBegin(lines[b + 1..e])
    ensures lines == lines[..b] + lines[b..e + 1] + lines[e + 1..]
  {
    hide KindOf;
    forall l | l in lines[..b] ensures !IsBlockEdge(l) {
      var i :| 0 <= i < b && lines[i] == l;
      assert !BeginAt(lines, i) && !EndAt(lines, i);
    }
    forall l | l in lines[e + 1..] ensures !IsBlockEdge(l) {
      var i :| 0 <= i < |lines| - e - 1 && lines[e + 1..][i] == l;
      assert !BeginAt(lines, e + 1 + i) && !EndAt(lines, e + 1 + i);
    }
    forall l | l in lines[b + 1..e] ensures !KindOf(l).BlockBegin? {
      var i :| 0 <= i < e - b - 1 && lines[b + 1..e][i] == l;
      assert !BeginAt(lines, b + 1 + i);
    }
  }

  lemma UpsertedGathered(ms: seq<BlockMember>, mark: Mark, lines: seq<string>)
    requires AllGathered(ms) && IsMemberText(mark, lines)
    ensures AllGathered(Upserted(ms, mark, lines))
    ensures Rebuilt(ms, mark.slug, lines) == LinesOfMembers(Upserted(ms, mark, lines))
  {
    hide KindOf;
    var new_ := BlockMember(mark, lines);
    assert WellGathered(new_) by {
      forall l | l in lines ensures !KindOf(l).BlockBegin? {
        assert l == lines[0] || l in lines[1..];
      }
    }
    forall m | m in Upserted(ms, mark, lines) ensures WellGathered(m) {
      assert m == new_ || m in ms;
    }
  }

  /**
   Upserting: finding afterwards gives the old members with that slug rewritten in its own
   position, or added last; it is refused exactly when the written id is another member's.
   The lines before and after the block stay as they were.
   */
  lemma UpsertThenGather(t: Text, mark: Mark, lines: seq<string>)
    requires FindMembers(t.lines).Ok? && IsMemberText(mark, lines)
    ensures UpsertMember(t, mark.slug, lines).Ok?
    ensures var after := UpsertMember(t, mark.slug, lines).value;
            && FindMembers(after.lines) == CheckMembers(Upserted(FindMembers(t.lines).value, mark, lines))
            && GatheredIn(after.lines) == Upserted(FindMembers(t.lines).value, mark, lines)
            && OnlyBlockMoved(t, after)
  {
    hide KindOf, Gather, Concat, DistinctMembers, AllGathered, Upserted, BlockLines, NoBlockEdge, IsBlockAt;
    BoundsMean(t.lines);
    var ms := FindMembers(t.lines).value;
    match BlockBounds(t.lines).value {
      case None =>
        FirstMember(t.lines, mark, lines);
      case Some((b, e)) =>
        var before, after := t.lines[..b], t.lines[e + 1..];
        AroundBlock(t.lines, b, e);
        GatherIsWell(t.lines[b + 1..e]);
        UpsertedGathered(ms, mark, lines);
        WrittenBlock(before, Upserted(ms, mark, lines), after);
        OutsideKept(t.lines, b, e, BlockLines(LinesOfMembers(Upserted(ms, mark, lines))));
    }
  }

  lemma OutsideKept(lines: seq<string>, b: nat, e: nat, block: seq<string>)
    requires b < e < |lines| && block != []
    ensures var new_ := lines[..b] + block + lines[e + 1..];
            new_[..b] == lines[..b] && new_[b + |block|..] == lines[e + 1..]
  {
  }

  lemma FirstMember(lines: seq<string>, mark: Mark, member: seq<string>)
    requires NoBlockEdge(lines) && IsMemberText(mark, member)
    ensures var n, block := |lines|, BlockLines([member]);
            && BlockBounds(lines + block) == Ok(Some((n, n + |block| - 1)))
            && FindMembers(lines + block) == CheckMembers(Upserted([], mark, member))
            && GatheredIn(lines + block) == Upserted([], mark, member)
  {
    hide KindOf, Gather, Concat;
    UpsertedGathered([], mark, member);
    assert LinesOfMembers(Upserted([], mark, member)) == [member];
    WrittenBlock(lines, Upserted([], mark, member), []);
    assert lines + BlockLines([member]) + [] == lines + BlockLines([member]);
  }

  /** Everything outside the block is as before; a block added where there was none goes last. */
  ghost predicate OnlyBlockMoved(old_: Text, new_: Text) {
    match (BlockBounds(old_.lines), BlockBounds(new_.lines))
    case (Ok(None), Ok(Some((b, e)))) =>
      new_.lines[..b] == old_.lines && e + 1 == |new_.lines| && new_.closed
    case (Ok(Some((b, e))), Ok(Some((b', e')))) =>
      b == b' && new_.lines[..b] == old_.lines[..b] && new_.lines[e' + 1..] == old_.lines[e + 1..]
      && new_.closed == (old_.closed || e + 1 == |old_.lines|)
    case (Ok(Some((b, e))), Ok(None)) =>
      new_.lines == old_.lines[..b] + old_.lines[e + 1..]
      && new_.closed == (old_.closed || e + 1 == |old_.lines|)
    case (Ok(None), Ok(None)) => new_ == old_
    case _ => false
  }

  lemma {:induction false} WithoutGathered(ms: seq<BlockMember>, slug: string)
    requires AllGathered(ms)
    ensures AllGathered(WithoutMember(ms, slug))
    ensures forall m :: m in WithoutMember(ms, slug) <==> m in ms && m.mark.slug != slug
    ensures DistinctMembers(ms) ==> DistinctMembers(WithoutMember(ms, slug))
  {
    hide KindOf;
    if ms != [] {
      WithoutGathered(ms[1..], slug);
      var rest := WithoutMember(ms[1..], slug);
      if DistinctMembers(ms) {
        forall j | 0 <= j < |rest| ensures rest[j].mark.id != ms[0].mark.id {
          assert rest[j] in ms[1..];
        }
      }
    }
  }

  /** Removing: the list without that slug; with the last member goes the whole block. */
  lemma RemoveThenGather(t: Text, slug: string)
    requires FindMembers(t.lines).Ok?
    ensures RemoveMember(t, slug).Ok?
    ensures var after, left := RemoveMember(t, slug).value, WithoutMember(FindMembers(t.lines).value, slug);
            && FindMembers(after.lines) == Ok(left)
            && OnlyBlockMoved(t, after)
            && (left == [] <==> NoBlockEdge(after.lines))
  {
    hide KindOf, Gather, Concat, DistinctMembers, AllGathered, WithoutMember, BlockLines, NoBlockEdge, IsBlockAt;
    BoundsMean(t.lines);
    var ms := FindMembers(t.lines).value;
    match BlockBounds(t.lines).value {
      case None =>
        NoneWithout(slug);
      case Some((b, e)) =>
        var before, after := t.lines[..b], t.lines[e + 1..];
        AroundBlock(t.lines, b, e);
        GatherIsWell(t.lines[b + 1..e]);
        WithoutGathered(ms, slug);
        var left := WithoutMember(ms, slug);
        if left == [] {
          assert before + [] + after == before + after;
          NoEdgeSum(before, after);
          BoundsMean(before + after);
        } else {
          WrittenBlock(before, left, after);
          OutsideKept(t.lines, b, e, BlockLines(LinesOfMembers(left)));
          BoundsMean(RemoveMember(t, slug).value.lines);
        }
    }
  }

  lemma NoneWithout(slug: string)
    ensures WithoutMember([], slug) == []
    ensures CheckMembers([]) == Ok([])
  {
  }

  lemma NoEdgeSum(a: seq<string>, b: seq<string>)
    requires NoBlockEdge(a) && NoBlockEdge(b)
    ensures NoBlockEdge(a + b)
  {
    hide KindOf;
  }

  /** On a text with no block, inserting and removing gives the text back, up to its closing newline. */
  lemma RemoveUndoesInsert(t: Text, mark: Mark, lines: seq<string>)
    requires NoBlockEdge(t.lines) && IsMemberText(mark, lines)
    ensures UpsertMember(t, mark.slug, lines).Ok?
    ensures RemoveMember(UpsertMember(t, mark.slug, lines).value, mark.slug) == Ok(Close(t))
    ensures RemoveMember(UpsertMember(t, mark.slug, lines).value, mark.slug) == Ok(t) <==> t.closed
  {
    hide KindOf, Gather, Concat, BlockLines, NoBlockEdge, IsBlockAt, BlockBounds;
    BoundsMean(t.lines);
    FirstMember(t.lines, mark, lines);
    var u := UpsertMember(t, mark.slug, lines).value;
    assert Upserted([], mark, lines) == [BlockMember(mark, lines)];
    assert WithoutMember([BlockMember(mark, lines)], mark.slug) == [];
    var (b, e) := BlockBounds(u.lines).value.value;
    assert u.lines[..b] + [] + u.lines[e + 1..] == t.lines;
  }
}
