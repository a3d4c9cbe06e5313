/**
 The five line shapes TaskControl recognises in a crontab, read character by character.

 The patterns exclude one another, so one function says which of them a line matches, with
 the groups it captures.  Reading back a written marker gives the marks that were written
 (BeginIsRead, EndIsRead, MemberIsRead), and none of the other lines TaskControl writes
 looks like a marker (FixedLinesArePlain, ExecIsPlain).
 */
module Markers {
  import opened Results

  datatype Mark = Mark(slug: string, id: string, digest: string)

  datatype Kind =
    | Plain
    | RegionBegin(mark: Mark)
    | RegionEnd(slug: string)
    | BlockBegin
    | BlockEnd
    | Member(mark: Mark)

  const KEYWORD := "taskcontrol"
  const OPENS := ">>>"
  const CLOSES := "<<<"
  const BLOCK_BEGIN := "# >>> taskcontrol block >>>"
  const BLOCK_END := "# <<< taskcontrol block <<<"
  const NOTICE := "# Managed by TaskControl. " + "Edits between the markers are overwritten on the next apply."
  const SHEBANG := "#!/bin/sh"
  const STRICT := "set -eu"

  /** The characters a regular expression's \s matches in a text. */
  predicate IsSpace(c: char) {
    var n := c as int;
    || 9 <= n <= 13 || 28 <= n <= 32 || n == 0x85 || n == 0xA0 || n == 0x1680
    || 0x2000 <= n <= 0x200A || n == 0x2028 || n == 0x2029 || n == 0x202F || n == 0x205F || n == 0x3000
  }

  /** A non-empty run of characters none of which is a space: what \S+ captures. */
  predicate IsToken(s: string) {
    s != "" && forall c | c in s :: !IsSpace(c)
  }

  predicate Tokens(m: Mark) {
    IsToken(m.slug) && IsToken(m.id) && IsToken(m.digest)
  }

  function SkipSpace(s: string): string {
    if s != "" && IsSpace(s[0]) then SkipSpace(s[1..]) else s
  }

  function Word(s: string): string {
    if s != "" && !IsSpace(s[0]) then [s[0]] + Word(s[1..]) else ""
  }

  function TrimRight(s: string): string {
    if s != "" && IsSpace(s[|s| - 1]) then TrimRight(s[..|s| - 1]) else s
  }

  /** A text with the spaces at both ends taken off. */
  function Strip(s: string): string {
    TrimRight(SkipSpace(s))
  }

  /** A text that begins with a non-space keeps everything up to any other. */
  lemma StripKeeps(s: string, i: nat)
    requires i < |s| && !IsSpace(s[0]) && !IsSpace(s[i])
    ensures i < |Strip(s)| && Strip(s)[i] == s[i]
  {
    hide IsSpace;
    TrimKeeps(s, i);
  }

  lemma {:induction false} TrimKeeps(s: string, i: nat)
    requires i < |s| && !IsSpace(s[i])
    ensures i < |TrimRight(s)| && TrimRight(s)[i] == s[i]
  {
    hide IsSpace;
    if IsSpace(s[|s| - 1]) {
      TrimKeeps(s[..|s| - 1], i);
    }
  }

  lemma StripShortens(s: string)
    ensures |Strip(s)| <= |s|
  {
    hide IsSpace;
    SkipIsShorter(s);
    TrimIsShorter(SkipSpace(s));
  }

  lemma {:induction false} SkipIsShorter(s: string)
    ensures |SkipSpace(s)| <= |s|
  {
    hide IsSpace;
    if s != "" && IsSpace(s[0]) {
      SkipIsShorter(s[1..]);
    }
  }

  lemma {:induction false} TrimIsShorter(s: string)
    ensures |TrimRight(s)| <= |s|
  {
    hide IsSpace;
    if s != "" && IsSpace(s[|s| - 1]) {
      TrimIsShorter(s[..|s| - 1]);
    }
  }

  predicate AllSpace(s: string) {
    forall c | c in s :: IsSpace(c)
  }

  /** Everything outside the span from i to j is space. */
  predicate SpaceAround(s: string, i: int, j: int) {
    0 <= i <= j <= |s| && AllSpace(s[..i]) && AllSpace(s[j..])
  }

  /** Character for character the same, but for space at either end. */
  ghost predicate AgreeInside(s: string, t: string) {
    exists i, j, k, l :: SpaceAround(s, i, j) && SpaceAround(t, k, l) && s[i..j] == t[k..l]
  }

  lemma {:induction false} SkipLeading(front: string, rest: string)
    requires AllSpace(front)
    ensures SkipSpace(front + rest) == SkipSpace(rest)
  {
    hide IsSpace;
    if front == "" {
      assert front + rest == rest;
    } else {
      assert front[0] in front && (front + rest)[1..] == front[1..] + rest;
      SkipLeading(front[1..], rest);
    }
  }

  lemma {:induction false} TrimTrailing(rest: string, back: string)
    requires AllSpace(back)
    ensures TrimRight(rest + back) == TrimRight(rest)
  {
    hide IsSpace;
    if back == "" {
      assert rest + back == rest;
    } else {
      var last := back[|back| - 1];
      assert last in back && (rest + back)[..|rest + back| - 1] == rest + back[..|back| - 1];
      TrimTrailing(rest, back[..|back| - 1]);
    }
  }

  lemma {:induction false} SkippedPart(s: string) returns (i: nat)
    ensures i <= |s| && AllSpace(s[..i]) && SkipSpace(s) == s[i..]
    ensures i < |s| ==> !IsSpace(s[i])
  {
    hide IsSpace;
    if s != "" && IsSpace(s[0]) {
      var k := SkippedPart(s[1..]);
      i := k + 1;
      assert s[..i] == [s[0]] + s[1..][..k] && s[1..][k..] == s[i..];
    } else {
      i := 0;
    }
  }

  lemma {:induction false} TrimmedPart(s: string) returns (j: nat)
    ensures j <= |s| && AllSpace(s[j..]) && TrimRight(s) == s[..j]
    ensures j > 0 ==> !IsSpace(s[j - 1])
  {
    hide IsSpace;
    if s != "" && IsSpace(s[|s| - 1]) {
      var front := s[..|s| - 1];
      j := TrimmedPart(front);
      assert s[j..] == front[j..] + [s[|s| - 1]] && s[..j] == front[..j];
    } else {
      j := |s|;
    }
  }

  /** What is stripped off either end is space and nothing else. */
  lemma StrippedPart(s: string) returns (i: nat, j: nat)
    ensures SpaceAround(s, i, j) && Strip(s) == s[i..j]
  {
    hide IsSpace, SkipSpace, TrimRight, AllSpace;
    i := SkippedPart(s);
    var k := TrimmedPart(s[i..]);
    j := i + k;
    assert s[i..][k..] == s[j..] && s[i..][..k] == s[i..j];
  }

  lemma StripOfPart(s: string, i: int, j: int)
    requires SpaceAround(s, i, j)
    ensures Strip(s) == Strip(s[i..j])
  {
    hide IsSpace, SkipSpace, TrimRight, AllSpace;
    var front, core, back := s[..i], s[i..j], s[j..];
    assert s == front + (core + back);
    SkipLeading(front, core + back);
    var k := SkippedPart(core);
    if k == |core| {
      AllBlank(core, back);
    } else {
      assert core + back == core[..k] + (core[k..] + back);
      SkipLeading(core[..k], core[k..] + back);
      assert SkipSpace(core[k..] + back) == core[k..] + back by { SolidStart(core[k..] + back); }
      TrimTrailing(core[k..], back);
    }
  }

  lemma SolidStart(s: string)
    requires s != "" && !IsSpace(s[0])
    ensures SkipSpace(s) == s
  {
  }

  lemma AllBlank(core: string, back: string)
    requires AllSpace(core[..|core|]) && AllSpace(back)
    ensures Strip(core + back) == "" && Strip(core) == ""
  {
    hide IsSpace;
    assert core[..|core|] == core;
    SkipLeading(core, back);
    SkipLeading(core, "");
    SkipLeading(back, "");
    assert core + "" == core && back + "" == back;
  }

  lemma StripTwice(s: string)
    ensures Strip(Strip(s)) == Strip(s)
  {
    hide Strip, IsSpace;
    var i, j := StrippedPart(s);
    StripOfPart(s, i, j);
  }

  /** Two texts strip to the same exactly when they agree but for space at either end. */
  lemma StripMeans(s: string, t: string)
    ensures Strip(s) == Strip(t) <==> AgreeInside(s, t)
  {
    hide Strip;
    var i, j := StrippedPart(s);
    var k, l := StrippedPart(t);
    if AgreeInside(s, t) {
      var i', j', k', l' :| SpaceAround(s, i', j') && SpaceAround(t, k', l') && s[i'..j'] == t[k'..l'];
      StripOfPart(s, i', j');
      StripOfPart(t, k', l');
    }
  }

  /** The keyword and the spaces that must follow it. */
  function AfterKeyword(s: string): Option<string> {
    if KEYWORD <= s && |s| > 11 && IsSpace(s[11]) then Some(SkipSpace(s[11..])) else None
  }

  /** One named field followed by at least one space: its value, and what comes next. */
  function Field(name: string, s: string): Option<(string, string)> {
    if !(name <= s) then None
    else
      var value := Word(s[|name|..]);
      var rest := s[|name|..];
      if value != "" && |value| < |rest| then Some((value, SkipSpace(rest[|value|..]))) else None
  }

  /** The last field of a marker, up to its closing arrows and trailing spaces. */
  function LastField(name: string, s: string, arrows: string): Option<string> {
    if !(name <= s) then None
    else
      var body := TrimRight(s[|name|..]);
      if |body| < |arrows| || body[|body| - |arrows|..] != arrows then None
      else
        var value := TrimRight(body[..|body| - |arrows|]);
        if IsToken(value) then Some(value) else None
  }

  function MarkFrom(s: string, arrows: string): Option<Mark> {
    match Field("task=", s)
    case None => None
    case Some((slug, afterSlug)) =>
      match Field("id=", afterSlug)
      case None => None
      case Some((id, afterId)) =>
        match LastField("digest=", afterId, arrows)
        case None => None
        case Some(digest) => Some(Mark(slug, id, digest))
  }

  predicate IsBlockMarker(s: string, arrows: string) {
    "block" <= s
    && var rest := SkipSpace(s[5..]);
       arrows <= rest && SkipSpace(rest[|arrows|..]) == ""
  }

  function OpeningKind(s: string): Kind {
    match AfterKeyword(s)
    case None => Plain
    case Some(rest) =>
      match MarkFrom(rest, OPENS)
      case Some(mark) => RegionBegin(mark)
      case None => if IsBlockMarker(rest, OPENS) then BlockBegin else Plain
  }

  function ClosingKind(s: string): Kind {
    match AfterKeyword(s)
    case None => Plain
    case Some(rest) =>
      match LastField("task=", rest, CLOSES)
      case Some(slug) => RegionEnd(slug)
      case None => if IsBlockMarker(rest, CLOSES) then BlockEnd else Plain
  }

  function KindOf(line: string): Kind {
    if !("#" <= line) then Plain
    else
      var body := SkipSpace(line[1..]);
      if OPENS <= body then OpeningKind(SkipSpace(body[3..]))
      else if CLOSES <= body then ClosingKind(SkipSpace(body[3..]))
      else
        match AfterKeyword(body)
        case None => Plain
        case Some(rest) =>
          match MarkFrom(rest, "")
          case Some(mark) => Member(mark)
          case None => Plain
  }

  predicate IsRegionMarker(line: string) {
    var k := KindOf(line);
    k.RegionBegin? || k.RegionEnd?
  }

  predicate IsBlockEdge(line: string) {
    var k := KindOf(line);
    k.BlockBegin? || k.BlockEnd?
  }

  // -- what TaskControl writes ------------------------------------------------------------

  function Fields(m: Mark, tail: string): string {
    "task=" + m.slug + " " + ("id=" + m.id + " " + ("digest=" + m.digest + tail))
  }

  function BeginMarker(m: Mark): string {
    "# >>> " + (KEYWORD + " " + Fields(m, " >>>"))
  }

  function EndMarker(slug: string): string {
    "# <<< " + (KEYWORD + " " + ("task=" + slug + " <<<"))
  }

  function MemberMarker(m: Mark): string {
    "# " + (KEYWORD + " " + Fields(m, ""))
  }

  // -- and how it reads back --------------------------------------------------------------

  lemma {:induction false} WordOf(token: string, rest: string)
    requires IsToken(token)
    requires rest == "" || IsSpace(rest[0])
    ensures Word(token + rest) == token
  {
    var s := token + rest;
    assert s[1..] == token[1..] + rest;
    if |token| > 1 {
      assert forall c | c in token[1..] :: c in token;
      WordOf(token[1..], rest);
    } else {
      assert s[1..] == rest;
    }
  }

  predicate StartsSolid(s: string) {
    s != "" && !IsSpace(s[0])
  }

  lemma SkipOne(s: string)
    requires StartsSolid(s)
    ensures SkipSpace(" " + s) == s
  {
    assert (" " + s)[1..] == s;
    assert SkipSpace(s) == s;
  }

  lemma FieldOf(name: string, value: string, next: string)
    requires IsToken(value) && StartsSolid(next)
    ensures Field(name, name + value + " " + next) == Some((value, next))
  {
    var s := name + value + " " + next;
    var rest := value + (" " + next);
    assert s[|name|..] == rest && s[..|name|] == name;
    WordOf(value, " " + next);
    assert rest[|value|..] == " " + next;
    SkipOne(next);
  }

  lemma TrimSolid(s: string)
    requires s != "" && !IsSpace(s[|s| - 1])
    ensures TrimRight(s) == s
  {
  }

  lemma TrimGap(value: string, gap: string)
    requires IsToken(value) && (gap == "" || gap == " ")
    ensures TrimRight(value + gap) == value
  {
    var s := value + gap;
    if gap == " " {
      assert s[..|s| - 1] == value;
    }
    assert value[|value| - 1] in value;
    TrimSolid(value);
  }

  /** What ends in a token has nothing to trim. */
  lemma TrimEnded(front: string, last: string)
    requires IsToken(last)
    ensures TrimRight(front + last) == front + last
  {
    hide TrimRight;
    var s := front + last;
    assert s[|s| - 1] == last[|last| - 1] && last[|last| - 1] in last;
    TrimSolid(s);
  }

  lemma Parts(name: string, front: string, arrows: string)
    ensures var s := name + (front + arrows);
            && name <= s && s[|name|..] == front + arrows
            && (front + arrows)[|front|..] == arrows && (front + arrows)[..|front|] == front
  {
    assert (name + (front + arrows))[..|name|] == name;
  }

  lemma LastFieldOf(name: string, value: string, gap: string, arrows: string)
    requires IsToken(value)
    requires (gap == "" && arrows == "") || (gap == " " && IsToken(arrows))
    ensures LastField(name, name + value + (gap + arrows), arrows) == Some(value)
  {
    hide IsSpace, TrimRight;
    var front := value + gap;
    var body := front + arrows;
    assert name + value + (gap + arrows) == name + body;
    Parts(name, front, arrows);
    TrimGap(value, gap);
    if arrows == "" {
      assert body == front == value;
    } else {
      TrimEnded(front, arrows);
    }
  }

  lemma MarkOf(m: Mark, gap: string, arrows: string)
    requires Tokens(m)
    requires (gap == "" && arrows == "") || (gap == " " && IsToken(arrows))
    ensures MarkFrom(Fields(m, gap + arrows), arrows) == Some(m)
  {
    var last := "digest=" + m.digest + (gap + arrows);
    var middle := "id=" + m.id + " " + last;
    assert last[0] == 'd' && middle[0] == 'i';
    FieldOf("task=", m.slug, middle);
    FieldOf("id=", m.id, last);
    LastFieldOf("digest=", m.digest, gap, arrows);
  }

  lemma KeywordOf(rest: string)
    requires StartsSolid(rest)
    ensures AfterKeyword(KEYWORD + " " + rest) == Some(rest)
  {
    var s := KEYWORD + " " + rest;
    assert s[..11] == KEYWORD;
    assert s[11..] == " " + rest;
    SkipOne(rest);
  }

  /** A comment line whose arrows open: decided by what follows them. */
  lemma OpenedLine(s: string)
    requires StartsSolid(s)
    ensures KindOf("# >>> " + s) == OpeningKind(s)
  {
    var line := "# >>> " + s;
    var body := OPENS + " " + s;
    assert line[..1] == "#" && line[1..] == " " + body;
    SkipOne(body);
    assert body[..3] == OPENS && body[3..] == " " + s;
    SkipOne(s);
  }

  lemma ClosedLine(s: string)
    requires StartsSolid(s)
    ensures KindOf("# <<< " + s) == ClosingKind(s)
  {
    var line := "# <<< " + s;
    var body := CLOSES + " " + s;
    assert line[..1] == "#" && line[1..] == " " + body;
    SkipOne(body);
    assert body[..3] == CLOSES && body[0] != '>' && body[3..] == " " + s;
    SkipOne(s);
  }

  lemma BeginIsRead(m: Mark)
    requires Tokens(m)
    ensures KindOf(BeginMarker(m)) == RegionBegin(m)
  {
    var rest := Fields(m, " >>>");
    var keyed := KEYWORD + " " + rest;
    assert keyed[0] == 't' && rest[0] == 't';
    OpenedLine(keyed);
    KeywordOf(rest);
    assert " >>>" == " " + OPENS;
    MarkOf(m, " ", OPENS);
  }

  lemma EndIsRead(slug: string)
    requires IsToken(slug)
    ensures KindOf(EndMarker(slug)) == RegionEnd(slug)
  {
    var rest := "task=" + slug + " <<<";
    var keyed := KEYWORD + " " + rest;
    assert keyed[0] == 't' && rest[0] == 't';
    assert " <<<" == " " + CLOSES;
    ClosedLine(keyed);
    KeywordOf(rest);
    LastFieldOf("task=", slug, " ", CLOSES);
  }

  lemma MemberIsRead(m: Mark)
    requires Tokens(m)
    ensures KindOf(MemberMarker(m)) == Member(m)
  {
    var line := MemberMarker(m);
    var rest := Fields(m, "");
    var body := KEYWORD + " " + rest;
    assert line[..1] == "#" && line[1..] == " " + body;
    assert body[0] == 't' && rest[0] == 't';
    SkipOne(body);
    KeywordOf(rest);
    assert "" + "" == "";
    MarkOf(m, "", "");
  }

  lemma BlockMarkerOf(arrows: string)
    requires IsToken(arrows)
    ensures IsBlockMarker("block " + arrows, arrows)
    ensures MarkFrom("block " + arrows, arrows).None?
    ensures LastField("task=", "block " + arrows, arrows).None?
  {
    var s := "block " + arrows;
    assert s[..5] == "block" && s[5..] == " " + arrows;
    SkipOne(arrows);
    assert arrows[..|arrows|] == arrows && arrows[|arrows|..] == "";
    assert s[0] != "task="[0];
  }

  lemma BlockEdgeIsRead(arrows: string)
    requires arrows == OPENS || arrows == CLOSES
    ensures arrows == OPENS ==> KindOf("# >>> " + (KEYWORD + " " + ("block " + arrows))) == BlockBegin
    ensures arrows == CLOSES ==> KindOf("# <<< " + (KEYWORD + " " + ("block " + arrows))) == BlockEnd
  {
    var edge := "block " + arrows;
    OpenedLine(KEYWORD + " " + edge);
    ClosedLine(KEYWORD + " " + edge);
    KeywordOf(edge);
    BlockMarkerOf(arrows);
  }

  lemma BlockEdgesAreRead()
    ensures KindOf(BLOCK_BEGIN) == BlockBegin
    ensures KindOf(BLOCK_END) == BlockEnd
  {
    hide KindOf;
    BlockEdgeIsRead(OPENS);
    BlockEdgeIsRead(CLOSES);
    assert BLOCK_BEGIN == "# >>> " + (KEYWORD + " " + ("block " + OPENS));
    assert BLOCK_END == "# <<< " + (KEYWORD + " " + ("block " + CLOSES));
  }

  /** A comment that opens with neither arrows nor the keyword is not a marker. */
  lemma CommentIsPlain(s: string)
    requires StartsSolid(s) && !(OPENS <= s) && !(CLOSES <= s) && AfterKeyword(s).None?
    ensures KindOf("# " + s) == Plain
  {
    var line := "# " + s;
    assert line[..1] == "#" && line[1..] == " " + s;
    SkipOne(s);
  }

  lemma FixedLinesArePlain()
    ensures KindOf(NOTICE) == Plain && KindOf(SHEBANG) == Plain && KindOf(STRICT) == Plain
  {
    var notice := NOTICE[2..];
    assert NOTICE == "# " + notice;
    CommentIsPlain(notice);
    var bang := "!/bin/sh";
    assert SHEBANG == "#" + bang;
    assert SHEBANG[1..] == bang && SkipSpace(bang) == bang && bang[0] == '!';
    assert STRICT[0] == 's';
  }

  lemma ExecIsPlain(command: string)
    ensures KindOf("exec " + command) == Plain
  {
    assert ("exec " + command)[0] == 'e';
  }
}
