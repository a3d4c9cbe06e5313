/**
 The single shared block: where it is, which members it holds, and rewriting it.

 IsBlockAt says by first principles where a text's block lies (one begin marker, the last end
 marker, nothing before it ends); BoundsMean proves the scanner finds exactly that.  The
 members between the markers behave as an ordered map keyed by slug.
 */
module Blocks {
  import opened Results
  import opened Faults
  import opened Texts
  import opened Markers

  datatype Edges = Edges(start: Option<nat>, end: Option<nat>)
  datatype BlockMember = BlockMember(mark: Mark, lines: seq<string>)

  type Bounds = Result<Option<(nat, nat)>, Fault>
  type Members = Result<seq<BlockMember>, Fault>

  function Step(edges: Edges, kind: Kind, index: nat): Result<Edges, Fault> {
    match kind
    case BlockBegin => if edges.start.Some? then Err(SecondBlock) else Ok(edges.(start := Some(index)))
    case BlockEnd => if edges.start.None? then Err(BlockEndWithoutBegin) else Ok(edges.(end := Some(index)))
    case _ => Ok(edges)
  }

  predicate Placed(edges: Edges, total: nat) {
    && (edges.start.Some? ==> edges.start.value < total)
    && (edges.end.Some? ==> edges.start.Some? && edges.start.value < edges.end.value < total)
  }

  /** The edges seen once every line has been looked at. */
  function ScanEdges(lines: seq<string>): (scan: Result<Edges, Fault>)
    ensures scan.Ok? ==> Placed(scan.value, |lines|)
  {
    if lines == [] then Ok(Edges(None, None))
    else
      var last := |lines| - 1;
      match ScanEdges(lines[..last])
      case Err(e) => Err(e)
      case Ok(edges) => Step(edges, KindOf(lines[last]), last)
  }

  function BoundsFrom(edges: Edges): Bounds {
    match edges
    case Edges(None, _) => Ok(None)
    case Edges(Some(_), None) => Err(BlockNeverEnds)
    case Edges(Some(b), Some(e)) => Ok(Some((b, e)))
  }

  function BlockBounds(lines: seq<string>): (bounds: Bounds)
    ensures bounds.Ok? && bounds.value.Some? ==> bounds.value.value.0 < bounds.value.value.1 < |lines|
  {
    match ScanEdges(lines)
    case Err(e) => Err(e)
    case Ok(edges) => BoundsFrom(edges)
  }

  /** The members of a stretch of lines: each identity comment with the lines that follow it. */
  function Gather(lines: seq<string>): (ms: seq<BlockMember>) {
    if lines == [] then []
    else
      var line := lines[|lines| - 1];
      var before := Gather(lines[..|lines| - 1]);
      match KindOf(line)
      case Member(mark) => before + [BlockMember(mark, [line])]
      case _ =>
        if before == [] then []
        else
          var last := before[|before| - 1];
          before[..|before| - 1] + [BlockMember(last.mark, last.lines + [line])]
  }

  /** Gather takes one more line: an identity opens a member, any other line joins the last one. */
  lemma GatherNext(lines: seq<string>, line: string)
    ensures KindOf(line).Member? ==>
      Gather(lines + [line]) == Gather(lines) + [BlockMember(KindOf(line).mark, [line])]
    ensures !KindOf(line).Member? && Gather(lines) == [] ==> Gather(lines + [line]) == []
    ensures !KindOf(line).Member? && Gather(lines) != [] ==>
      var n := |Gather(lines)| - 1;
      Gather(lines + [line]) == Gather(lines)[..n]
                                + [BlockMember(Gather(lines)[n].mark, Gather(lines)[n].lines + [line])]
  {
    hide KindOf;
    assert (lines + [line])[..|lines + [line]| - 1] == lines;
  }

  predicate DistinctMembers(ms: seq<BlockMember>) {
    forall i, j | 0 <= i < j < |ms| :: ms[i].mark.id != ms[j].mark.id
  }

  function CheckMembers(ms: seq<BlockMember>): Members {
    if DistinctMembers(ms) then Ok(ms) else Err(DuplicateMember)
  }

  // -- where the block is ------------------------------------------------------------------

  predicate NoBlockEdge(lines: seq<string>) {
    forall l | l in lines :: !IsBlockEdge(l)
  }

  predicate BeginAt(lines: seq<string>, i: int) {
    0 <= i < |lines| && KindOf(lines[i]).BlockBegin?
  }

  predicate EndAt(lines: seq<string>, i: int) {
    0 <= i < |lines| && KindOf(lines[i]).BlockEnd?
  }

  /** One begin marker, at b; the last end marker at e; no end marker before b. */
  ghost predicate IsBlockAt(lines: seq<string>, b: nat, e: nat) {
    && b < e
    && BeginAt(lines, b) && EndAt(lines, e)
    && (forall i :: BeginAt(lines, i) ==> i == b)
    && (forall i :: EndAt(lines, i) ==> b < i <= e)
  }

  /** What the scanner's edges mean after any number of lines. */
  ghost predicate EdgesMean(lines: seq<string>, scan: Result<Edges, Fault>) {
    match scan
    case Err(_) =>
      || (exists i, j :: i < j && BeginAt(lines, i) && BeginAt(lines, j))
      || (exists i :: EndAt(lines, i) && forall j :: BeginAt(lines, j) ==> i < j)
    case Ok(Edges(None, end)) =>
      end.None? && forall i :: !BeginAt(lines, i) && !EndAt(lines, i)
    case Ok(Edges(Some(b), end)) =>
      && BeginAt(lines, b)
      && (forall i :: BeginAt(lines, i) ==> i == b)
      && (forall i :: EndAt(lines, i) ==> b < i && end.Some? && i <= end.value)
      && (end.Some? ==> EndAt(lines, end.value))
  }

  lemma {:induction false} EdgesAreMeant(lines: seq<string>)
    ensures EdgesMean(lines, ScanEdges(lines))
  {
    hide KindOf;
    if lines != [] {
      var last := |lines| - 1;
      var front := lines[..last];
      EdgesAreMeant(front);
      assert forall i | i != last :: BeginAt(lines, i) <==> BeginAt(front, i);
      assert forall i | i != last :: EndAt(lines, i) <==> EndAt(front, i);
      assert !BeginAt(front, last) && !EndAt(front, last);
      match ScanEdges(front) {
        case Err(_) =>
        case Ok(edges) =>
          match KindOf(lines[last]) {
            case BlockBegin => assert BeginAt(lines, last) && !EndAt(lines, last);
            case BlockEnd => assert EndAt(lines, last) && !BeginAt(lines, last);
            case _ => assert !EndAt(lines, last) && !BeginAt(lines, last);
          }
      }
    }
  }

  /** The bounds found are the bounds there are; none are found exactly where no marker stands. */
  lemma BoundsMean(lines: seq<string>)
    ensures forall b: nat, e: nat :: BlockBounds(lines) == Ok(Some((b, e))) <==> IsBlockAt(lines, b, e)
    ensures BlockBounds(lines) == Ok(None) <==> NoBlockEdge(lines)
  {
    hide KindOf;
    EdgesAreMeant(lines);
    forall b: nat, e: nat
      ensures BlockBounds(lines) == Ok(Some((b, e))) <==> IsBlockAt(lines, b, e)
    {
    }
    NoEdgeAnywhere(lines);
  }

  lemma NoEdgeAnywhere(lines: seq<string>)
    ensures NoBlockEdge(lines) <==> forall i :: !BeginAt(lines, i) && !EndAt(lines, i)
  {
    hide KindOf;
    if !NoBlockEdge(lines) {
      var l :| l in lines && IsBlockEdge(l);
      var i :| 0 <= i < |lines| && lines[i] == l;
      assert BeginAt(lines, i) || EndAt(lines, i);
    } else {
      forall i ensures !BeginAt(lines, i) && !EndAt(lines, i) {
        if 0 <= i < |lines| {
          assert lines[i] in lines;
        }
      }
    }
  }

  /** Line i is a second begin marker, or an end marker no begin marker stands before. */
  ghost predicate Offends(lines: seq<string>, i: int, f: Fault) {
    || (f == SecondBlock && BeginAt(lines, i) && exists j :: j < i && BeginAt(lines, j))
    || (f == BlockEndWithoutBegin && EndAt(lines, i) && forall j :: BeginAt(lines, j) ==> i <= j)
  }

  ghost predicate FirstOffence(lines: seq<string>, i: int, f: Fault) {
    Offends(lines, i, f) && forall j, g | j < i :: !Offends(lines, j, g)
  }

  lemma OffencesStay(front: seq<string>, line: string, i: int, f: Fault)
    requires i < |front|
    ensures Offends(front + [line], i, f) <==> Offends(front, i, f)
  {
    hide KindOf;
    var lines := front + [line];
    assert forall j | j < |front| :: BeginAt(lines, j) <==> BeginAt(front, j);
    assert forall j | j < |front| :: EndAt(lines, j) <==> EndAt(front, j);
    assert forall j | BeginAt(front, j) :: j < |front|;
  }

  /** The first offence is what the scanner stops with; without one it goes through. */
  lemma {:induction false} EdgesFailWhen(lines: seq<string>)
    ensures ScanEdges(lines).Err? ==> exists i :: FirstOffence(lines, i, ScanEdges(lines).error)
    ensures ScanEdges(lines).Ok? ==> forall i, f :: !Offends(lines, i, f)
  {
    hide KindOf, Offends;
    if lines == [] {
      NothingOffends();
    } else {
      var last := |lines| - 1;
      var front, line := lines[..last], lines[last];
      assert lines == front + [line];
      EdgesFailWhen(front);
      forall i, f | i < last ensures Offends(lines, i, f) <==> Offends(front, i, f) {
        OffencesStay(front, line, i, f);
      }
      if ScanEdges(front).Err? {
        var i :| FirstOffence(front, i, ScanEdges(front).error);
        OffenceIsInside(front, i, ScanEdges(front).error);
        assert FirstOffence(lines, i, ScanEdges(front).error);
      } else {
        LastOffence(front, line);
        forall i, f | i > last ensures !Offends(lines, i, f) {
          OffenceIsWithin(lines, i, f);
        }
        if ScanEdges(lines).Err? {
          assert FirstOffence(lines, last, ScanEdges(lines).error);
        }
      }
    }
  }

  lemma NothingOffends()
    ensures forall i, f :: !Offends([], i, f)
  {
  }

  lemma OffenceIsInside(lines: seq<string>, i: int, f: Fault)
    requires Offends(lines, i, f)
    ensures 0 <= i < |lines|
  {
  }

  lemma OffenceIsWithin(lines: seq<string>, i: int, f: Fault)
    requires i >= |lines|
    ensures !Offends(lines, i, f)
  {
  }

  /** One more line offends exactly when the scanner's step over it fails. */
  lemma LastOffence(front: seq<string>, line: string)
    requires ScanEdges(front).Ok?
    ensures var lines := front + [line];
            && (ScanEdges(lines).Err? ==> Offends(lines, |front|, ScanEdges(lines).error))
            && (ScanEdges(lines).Ok? ==> forall f :: !Offends(lines, |front|, f))
  {
    hide KindOf, ScanEdges;
    var lines := front + [line];
    assert lines[..|lines| - 1] == front && lines[|front|] == line;
    OneMoreEdge(front, line);
    EdgesAreMeant(front);
    assert forall j | j < |front| :: BeginAt(lines, j) <==> BeginAt(front, j);
    assert forall j | BeginAt(front, j) :: j < |front|;
  }

  lemma OneMoreEdge(front: seq<string>, line: string)
    requires ScanEdges(front).Ok?
    ensures ScanEdges(front + [line]) == Step(ScanEdges(front).value, KindOf(line), |front|)
  {
    hide KindOf, Step;
    assert (front + [line])[..|front + [line]| - 1] == front;
  }

  /** The bounds are refused for the first offence, or, where nothing offends, for a block that never ends. */
  lemma BoundsFailWhen(lines: seq<string>, f: Fault)
    ensures BlockBounds(lines) == Err(f) <==>
              || (exists i :: FirstOffence(lines, i, f))
              || (f == BlockNeverEnds && (forall i, g :: !Offends(lines, i, g))
                  && (exists i :: BeginAt(lines, i)) && forall i :: !EndAt(lines, i))
  {
    hide KindOf, Offends, ScanEdges;
    EdgesFailWhen(lines);
    EdgesAreMeant(lines);
    OneFirstOffence(lines);
    NeverEndsIsNoOffence(lines);
  }

  lemma OneFirstOffence(lines: seq<string>)
    ensures forall i, j, f, g | FirstOffence(lines, i, f) && FirstOffence(lines, j, g) :: f == g
  {
    hide KindOf;
    forall i, j, f, g | FirstOffence(lines, i, f) && FirstOffence(lines, j, g) ensures f == g {
      if i < j || j < i {
        assert false;
      }
    }
  }

  lemma NeverEndsIsNoOffence(lines: seq<string>)
    ensures forall i :: !Offends(lines, i, BlockNeverEnds)
  {
  }

  // -- operations --------------------------------------------------------------------------

  function FindMembers(lines: seq<string>): Members {
    match BlockBounds(lines)
    case Err(e) => Err(e)
    case Ok(None) => Ok([])
    case Ok(Some((b, e))) => CheckMembers(Gather(lines[b + 1..e]))
  }

  function Concat(parts: seq<seq<string>>): seq<string> {
    if parts == [] then [] else parts[0] + Concat(parts[1..])
  }

  function BlockLines(members: seq<seq<string>>): seq<string> {
    [BLOCK_BEGIN, NOTICE] + Concat(members) + [BLOCK_END]
  }

  predicate HasMember(ms: seq<BlockMember>, slug: string) {
    exists m | m in ms :: m.mark.slug == slug
  }

  /** The members with every one of that slug rewritten in its place, or the member added last. */
  function Upserted(ms: seq<BlockMember>, mark: Mark, lines: seq<string>): seq<BlockMember> {
    var inPlace := seq(|ms|, i requires 0 <= i < |ms| =>
                       if ms[i].mark.slug == mark.slug then BlockMember(mark, lines) else ms[i]);
    if HasMember(ms, mark.slug) then inPlace else inPlace + [BlockMember(mark, lines)]
  }

  function WithoutMember(ms: seq<BlockMember>, slug: string): seq<BlockMember> {
    if ms == [] then []
    else if ms[0].mark.slug == slug then WithoutMember(ms[1..], slug)
    else [ms[0]] + WithoutMember(ms[1..], slug)
  }

  function LinesOfMembers(ms: seq<BlockMember>): seq<seq<string>> {
    seq(|ms|, i requires 0 <= i < |ms| => ms[i].lines)
  }

  /** The entry lines rebuilt by an upsert: only the lines are known, not the mark they carry. */
  function Rebuilt(ms: seq<BlockMember>, slug: string, member: seq<string>): seq<seq<string>> {
    LinesOfMembers(Upserted(ms, Mark(slug, "", ""), member))
  }

  function UpsertMember(t: Text, slug: string, member: seq<string>): Result<Text, Fault> {
    match BlockBounds(t.lines)
    case Err(e) => Err(e)
    case Ok(None) => Ok(Text(t.lines + BlockLines([member]), true))
    case Ok(Some((b, e))) =>
      match FindMembers(t.lines)
      case Err(f) => Err(f)
      case Ok(ms) => Ok(Splice(t, b, e + 1, BlockLines(Rebuilt(ms, slug, member))))
  }

  function RemoveMember(t: Text, slug: string): Result<Text, Fault> {
    match BlockBounds(t.lines)
    case Err(e) => Err(e)
    case Ok(None) => Ok(t)
    case Ok(Some((b, e))) =>
      match FindMembers(t.lines)
      case Err(f) => Err(f)
      case Ok(ms) =>
        var remaining := WithoutMember(ms, slug);
        if remaining == [] then Ok(Splice(t, b, e + 1, []))
        else Ok(Splice(t, b, e + 1, BlockLines(LinesOfMembers(remaining))))
  }

  // -- the loops ---------------------------------------------------------------------------

  lemma {:induction false} ErrorSticks(lines: seq<string>, i: nat)
    requires i <= |lines| && ScanEdges(lines[..i]).Err?
    ensures ScanEdges(lines) == ScanEdges(lines[..i])
    decreases |lines|
  {
    if i < |lines| {
      var front := lines[..|lines| - 1];
      assert front[..i] == lines[..i];
      ErrorSticks(front, i);
    } else {
      assert lines[..i] == lines;
    }
  }

  method FindBlockBounds(lines: seq<string>) returns (bounds: Bounds)
    ensures bounds == BlockBounds(lines)
  {
    hide KindOf;
    var start: Option<nat> := None;
    var end: Option<nat> := None;
    for index := 0 to |lines|
      invariant ScanEdges(lines[..index]) == Ok(Edges(start, end))
    {
      assert lines[..index + 1][..index] == lines[..index];
      match KindOf(lines[index]) {
        case BlockBegin =>
          if start.Some? {
            ErrorSticks(lines, index + 1);
            return Err(SecondBlock);
          }
          start := Some(index);
        case BlockEnd =>
          if start.None? {
            ErrorSticks(lines, index + 1);
            return Err(BlockEndWithoutBegin);
          }
          end := Some(index);
        case _ =>
      }
    }
    assert lines[..|lines|] == lines;
    if start.None? {
      return Ok(None);
    }
    if end.None? {
      return Err(BlockNeverEnds);
    }
    return Ok(Some((start.value, end.value)));
  }

  lemma NoLines()
    ensures Gather([]) == []
  {
  }

  method FindBlockMembers(lines: seq<string>) returns (found: Members)
    ensures found == FindMembers(lines)
  {
    hide KindOf, Gather, BlockBounds;
    var bounds := FindBlockBounds(lines);
    if bounds.Err? {
      return Err(bounds.error);
    }
    if bounds.value.None? {
      return Ok([]);
    }
    var (start, end) := bounds.value.value;
    var members: seq<BlockMember> := [];
    var current: Option<Mark> := None;
    var body: seq<string> := [];
    assert lines[start + 1..start + 1] == [];
    NoLines();
    for i := start + 1 to end
      invariant current.None? ==> members == []
      invariant Gather(lines[start + 1..i])
             == members + (if current.Some? then [BlockMember(current.value, body)] else [])
    {
      var line := lines[i];
      GatherNext(lines[start + 1..i], line);
      assert lines[start + 1..i + 1] == lines[start + 1..i] + [line];
      match KindOf(line) {
        case Member(mark) =>
          if current.Some? {
            members := members + [BlockMember(current.value, body)];
          }
          current, body := Some(mark), [line];
        case _ =>
          if current.Some? {
            body := body + [line];
          }
      }
    }
    if current.Some? {
      members := members + [BlockMember(current.value, body)];
    }
    found := AssertMembersUnique(members);
  }

  method AssertMembersUnique(ms: seq<BlockMember>) returns (found: Members)
    ensures found == CheckMembers(ms)
  {
    var seen: set<string> := {};
    for i := 0 to |ms|
      invariant DistinctMembers(ms[..i])
      invariant forall id :: id in seen <==> exists j | 0 <= j < i :: ms[j].mark.id == id
    {
      if ms[i].mark.id in seen {
        return Err(DuplicateMember);
      }
      seen := seen + {ms[i].mark.id};
    }
    assert ms[..|ms|] == ms;
    return Ok(ms);
  }

  method UpsertBlockMember(t: Text, slug: string, member: seq<string>) returns (r: Result<Text, Fault>)
    ensures r == UpsertMember(t, slug, member)
  {
    hide KindOf, Gather, BlockLines, Concat, Rebuilt;
    var bounds := FindBlockBounds(t.lines);
    if bounds.Err? {
      return Err(bounds.error);
    }
    if bounds.value.None? {
      return Ok(Text(t.lines + BlockLines([member]), true));
    }
    var found := FindBlockMembers(t.lines);
    if found.Err? {
      return Err(found.error);
    }
    var rebuilt := RebuildMembers(found.value, slug, member);
    var (b, e) := bounds.value.value;
    return Ok(Splice(t, b, e + 1, BlockLines(rebuilt)));
  }

  /** The members' lines with every one of that slug replaced, or the new one added last. */
  method RebuildMembers(ms: seq<BlockMember>, slug: string, member: seq<string>) returns (rebuilt: seq<seq<string>>)
    ensures rebuilt == Rebuilt(ms, slug, member)
  {
    rebuilt := [];
    var replaced := false;
    for i := 0 to |ms|
      invariant |rebuilt| == i
      invariant forall j | 0 <= j < i :: rebuilt[j] == if ms[j].mark.slug == slug then member else ms[j].lines
      invariant replaced <==> exists j | 0 <= j < i :: ms[j].mark.slug == slug
    {
      if ms[i].mark.slug == slug {
        rebuilt, replaced := rebuilt + [member], true;
      } else {
        rebuilt := rebuilt + [ms[i].lines];
      }
    }
    if !replaced {
      rebuilt := rebuilt + [member];
    }
    assert replaced <==> HasMember(ms, slug);
  }
}
