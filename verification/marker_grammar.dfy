/**
 The marker patterns as a grammar: what a line must be made of to be each of the five markers.

 KindMeans: a line is read as a marker with those marks exactly when it is made of the
 pattern's parts, with any space where the pattern allows some and at least one where it
 asks for some.  So no line has two readings, and hand-edited spacing changes none.
 */
module MarkerGrammar {
  import opened Results
  import opened Markers

  predicate Gap(s: string) {
    s != "" && AllSpace(s)
  }

  /** A comment sign, any space, and the rest. */
  ghost predicate Commented(line: string, rest: string) {
    exists a :: AllSpace(a) && line == "#" + (a + rest)
  }

  ghost predicate Arrowed(s: string, arrows: string, rest: string) {
    exists a :: AllSpace(a) && s == arrows + (a + rest)
  }

  ghost predicate Keyworded(s: string, rest: string) {
    exists a :: Gap(a) && s == KEYWORD + (a + rest)
  }

  /** A named value, a gap, and the rest. */
  ghost predicate Named(s: string, name: string, value: string, rest: string) {
    IsToken(value) && exists a :: Gap(a) && s == name + (value + (a + rest))
  }

  /** A named value and the closing arrows, with any space before and after them. */
  ghost predicate NamedLast(s: string, name: string, value: string, arrows: string) {
    IsToken(value) && exists a, b :: AllSpace(a) && AllSpace(b) && s == name + (value + (a + (arrows + b)))
  }

  ghost predicate Marks(s: string, m: Mark, arrows: string) {
    exists t, u :: Named(s, "task=", m.slug, t) && Named(t, "id=", m.id, u) && NamedLast(u, "digest=", m.digest, arrows)
  }

  ghost predicate BlockWord(s: string, arrows: string) {
    exists a, b :: AllSpace(a) && AllSpace(b) && s == "block" + (a + (arrows + b))
  }

  /** A comment that opens with arrows and the keyword. */
  ghost predicate Opened(line: string, arrows: string, rest: string) {
    exists s, t :: Commented(line, s) && Arrowed(s, arrows, t) && Keyworded(t, rest)
  }

  ghost predicate IsBegin(line: string, m: Mark) {
    exists s :: Opened(line, OPENS, s) && Marks(s, m, OPENS)
  }

  ghost predicate IsEnd(line: string, slug: string) {
    exists s :: Opened(line, CLOSES, s) && NamedLast(s, "task=", slug, CLOSES)
  }

  ghost predicate IsBlockLine(line: string, arrows: string) {
    exists s :: Opened(line, arrows, s) && BlockWord(s, arrows)
  }

  ghost predicate IsIdentity(line: string, m: Mark) {
    exists s, t :: Commented(line, s) && Keyworded(s, t) && Marks(t, m, "")
  }

  // -- one part at a time ------------------------------------------------------------------------

  /** What is left after skipping space is what any space precedes. */
  lemma SkipMeans(s: string, rest: string)
    requires StartsSolid(rest)
    ensures SkipSpace(s) == rest <==> exists a :: AllSpace(a) && s == a + rest
  {
    hide IsSpace, AllSpace, SkipSpace;
    var i := SkippedPart(s);
    if SkipSpace(s) == rest {
      assert s == s[..i] + rest;
    }
    if a :| AllSpace(a) && s == a + rest {
      SkipLeading(a, rest);
      SolidStart(rest);
    }
  }

  lemma SkipIsSolid(s: string)
    ensures SkipSpace(s) == "" || StartsSolid(SkipSpace(s))
  {
    hide IsSpace;
    var i := SkippedPart(s);
  }

  lemma CommentMeans(line: string, rest: string)
    requires StartsSolid(rest)
    ensures Commented(line, rest) <==> "#" <= line && SkipSpace(line[1..]) == rest
  {
    hide IsSpace, AllSpace, SkipSpace, StartsSolid;
    if "#" <= line && SkipSpace(line[1..]) == rest {
      SkipMeans(line[1..], rest);
      var a :| AllSpace(a) && line[1..] == a + rest;
      assert line == "#" + (a + rest);
    }
    if Commented(line, rest) {
      var a :| AllSpace(a) && line == "#" + (a + rest);
      assert line[..1] == "#" && line[1..] == a + rest;
      SkipMeans(line[1..], rest);
    }
  }

  lemma ArrowsMean(s: string, arrows: string, rest: string)
    requires StartsSolid(rest)
    ensures Arrowed(s, arrows, rest) <==> arrows <= s && SkipSpace(s[|arrows|..]) == rest
  {
    hide IsSpace, AllSpace, SkipSpace, StartsSolid;
    if arrows <= s && SkipSpace(s[|arrows|..]) == rest {
      SkipMeans(s[|arrows|..], rest);
      var a :| AllSpace(a) && s[|arrows|..] == a + rest;
      assert s == arrows + (a + rest);
    }
    if Arrowed(s, arrows, rest) {
      var a :| AllSpace(a) && s == arrows + (a + rest);
      assert s[..|arrows|] == arrows && s[|arrows|..] == a + rest;
      SkipMeans(s[|arrows|..], rest);
    }
  }

  lemma KeywordMeans(s: string, rest: string)
    requires StartsSolid(rest)
    ensures Keyworded(s, rest) <==> AfterKeyword(s) == Some(rest)
  {
    hide IsSpace, AllSpace, SkipSpace;
    assert |KEYWORD| == 11;
    if AfterKeyword(s) == Some(rest) {
      SkipMeans(s[11..], rest);
      var a :| AllSpace(a) && s[11..] == a + rest;
      if a == "" {
        assert false;
      }
      assert s == KEYWORD + (a + rest);
    }
    if Keyworded(s, rest) {
      var a :| Gap(a) && s == KEYWORD + (a + rest);
      assert s[..11] == KEYWORD && s[11..] == a + rest;
      FirstIsSpace(a);
      SkipMeans(s[11..], rest);
    }
  }

  lemma FirstIsSpace(a: string)
    requires Gap(a)
    ensures IsSpace(a[0])
  {
    assert a[0] in a;
  }

  /** The first word of a text is what a space or the end follows. */
  lemma {:induction false} WordMeans(s: string)
    ensures Word(s) <= s && forall c | c in Word(s) :: !IsSpace(c)
    ensures |Word(s)| < |s| ==> IsSpace(s[|Word(s)|])
  {
    hide IsSpace;
    if s != "" && !IsSpace(s[0]) {
      WordMeans(s[1..]);
      assert Word(s)[1..] == Word(s[1..]);
    }
  }

  lemma FieldMeans(s: string, name: string, value: string, rest: string)
    requires StartsSolid(rest)
    ensures Named(s, name, value, rest) <==> Field(name, s) == Some((value, rest))
  {
    hide IsSpace, AllSpace, SkipSpace, Word;
    if Field(name, s) == Some((value, rest)) {
      var tail := s[|name|..];
      WordMeans(tail);
      SkipMeans(tail[|value|..], rest);
      var a :| AllSpace(a) && tail[|value|..] == a + rest;
      if a == "" {
        assert false;
      }
      assert tail == value + (a + rest) && s == name + (value + (a + rest));
    }
    if Named(s, name, value, rest) {
      var a :| Gap(a) && s == name + (value + (a + rest));
      FirstIsSpace(a);
      var tail := value + (a + rest);
      assert s[..|name|] == name && s[|name|..] == tail;
      WordOf(value, a + rest);
      assert tail[|value|..] == a + rest;
      SkipMeans(a + rest, rest);
    }
  }

  lemma LastFieldMeans(s: string, name: string, value: string, arrows: string)
    requires arrows == "" || IsToken(arrows)
    ensures NamedLast(s, name, value, arrows) <==> LastField(name, s, arrows) == Some(value)
  {
    hide IsSpace, AllSpace, TrimRight, IsToken;
    if LastField(name, s, arrows) == Some(value) {
      var tail := s[|name|..];
      var j := TrimmedPart(tail);
      var body := tail[..j];
      var front := body[..|body| - |arrows|];
      var i := TrimmedPart(front);
      assert tail == value + (front[i..] + (arrows + tail[j..]));
      assert s == name + (value + (front[i..] + (arrows + tail[j..])));
    }
    if NamedLast(s, name, value, arrows) {
      var a, b :| AllSpace(a) && AllSpace(b) && s == name + (value + (a + (arrows + b)));
      NamedLastReads(s, name, value, arrows, a, b);
    }
  }

  lemma NamedLastReads(s: string, name: string, value: string, arrows: string, a: string, b: string)
    requires IsToken(value) && AllSpace(a) && AllSpace(b) && (arrows == "" || IsToken(arrows))
    requires s == name + (value + (a + (arrows + b)))
    ensures LastField(name, s, arrows) == Some(value)
  {
    hide IsSpace, AllSpace, TrimRight, IsToken;
    var tail := value + (a + (arrows + b));
    assert s[..|name|] == name && s[|name|..] == tail;
    TokenEnds(value);
    TrimTrailing(value, a);
    if arrows == "" {
      assert tail == value + a + b && tail[|tail|..] == "";
      TrimTrailing(value + a, b);
      assert value[|value|..] == "" && value[..|value|] == value;
    } else {
      var body := value + a + arrows;
      assert tail == body + b;
      TrimTrailing(body, b);
      TrimEnded(value + a, arrows);
      assert body[|body| - |arrows|..] == arrows && body[..|body| - |arrows|] == value + a;
    }
  }

  lemma TokenEnds(value: string)
    requires IsToken(value)
    ensures TrimRight(value) == value
  {
    hide TrimRight;
    assert value[|value| - 1] in value;
    TrimSolid(value);
  }

  // -- the marks -----------------------------------------------------------------------------------

  lemma NamedStarts(s: string, name: string, value: string, rest: string)
    requires Named(s, name, value, rest) && name != "" && !IsSpace(name[0])
    ensures StartsSolid(s)
  {
    hide IsSpace, AllSpace;
    var a :| Gap(a) && s == name + (value + (a + rest));
    assert s[0] == name[0];
  }

  lemma NamedLastStarts(s: string, name: string, value: string, arrows: string)
    requires NamedLast(s, name, value, arrows) && name != "" && !IsSpace(name[0])
    ensures StartsSolid(s)
  {
    hide IsSpace, AllSpace;
    var a, b :| AllSpace(a) && AllSpace(b) && s == name + (value + (a + (arrows + b)));
    assert s[0] == name[0];
  }

  lemma NamesAreSolid()
    ensures !IsSpace("task="[0]) && !IsSpace("id="[0]) && !IsSpace("digest="[0]) && !IsSpace("block"[0])
    ensures StartsSolid(KEYWORD) && StartsSolid(OPENS) && StartsSolid(CLOSES) && IsToken(OPENS) && IsToken(CLOSES)
  {
  }

  lemma MarksMean(s: string, m: Mark, arrows: string)
    requires arrows == "" || IsToken(arrows)
    ensures Marks(s, m, arrows) <==> MarkFrom(s, arrows) == Some(m)
  {
    hide IsSpace, IsToken, Field, LastField, Named, NamedLast;
    NamesAreSolid();
    if Marks(s, m, arrows) {
      var t, u :| Named(s, "task=", m.slug, t) && Named(t, "id=", m.id, u) && NamedLast(u, "digest=", m.digest, arrows);
      NamedLastStarts(u, "digest=", m.digest, arrows);
      NamedStarts(t, "id=", m.id, u);
      FieldMeans(s, "task=", m.slug, t);
      FieldMeans(t, "id=", m.id, u);
      LastFieldMeans(u, "digest=", m.digest, arrows);
    }
    if MarkFrom(s, arrows) == Some(m) {
      var t := Field("task=", s).value.1;
      var u := Field("id=", t).value.1;
      PrefixStarts(t, "id=", u);
      PrefixLastStarts(u, "digest=", arrows);
      FieldMeans(s, "task=", m.slug, t);
      FieldMeans(t, "id=", m.id, u);
      LastFieldMeans(u, "digest=", m.digest, arrows);
    }
  }

  lemma PrefixStarts(s: string, name: string, rest: string)
    requires Field(name, s).Some? && name != "" && !IsSpace(name[0])
    ensures StartsSolid(s)
  {
    hide IsSpace, Word, SkipSpace;
  }

  lemma PrefixLastStarts(s: string, name: string, arrows: string)
    requires LastField(name, s, arrows).Some? && name != "" && !IsSpace(name[0])
    ensures StartsSolid(s)
  {
    hide IsSpace, TrimRight;
  }

  lemma MarksStart(s: string, m: Mark, arrows: string)
    requires Marks(s, m, arrows)
    ensures StartsSolid(s) && "task=" <= s
  {
    hide IsSpace, AllSpace, NamedLast;
    NamesAreSolid();
    var t, u :| Named(s, "task=", m.slug, t) && Named(t, "id=", m.id, u) && NamedLast(u, "digest=", m.digest, arrows);
    NamedStarts(s, "task=", m.slug, t);
    var a :| Gap(a) && s == "task=" + (m.slug + (a + t));
    assert s[..5] == "task=";
  }

  lemma BlockMeans(s: string, arrows: string)
    requires IsToken(arrows)
    ensures BlockWord(s, arrows) <==> IsBlockMarker(s, arrows)
    ensures BlockWord(s, arrows) ==> StartsSolid(s) && "block" <= s
  {
    hide IsSpace, AllSpace, SkipSpace;
    NamesAreSolid();
    if BlockWord(s, arrows) {
      var a, b :| AllSpace(a) && AllSpace(b) && s == "block" + (a + (arrows + b));
      assert s[..5] == "block" && s[5..] == a + (arrows + b) && s[0] == "block"[0];
      var rest := arrows + b;
      assert rest[0] == arrows[0] && arrows[0] in arrows;
      SkipMeans(s[5..], rest);
      assert rest[..|arrows|] == arrows && rest[|arrows|..] == b;
      SkipLeading(b, "");
      assert b + "" == b;
      NothingToSkip();
    }
    if IsBlockMarker(s, arrows) {
      var rest := SkipSpace(s[5..]);
      assert rest[0] == arrows[0] && arrows[0] in arrows;
      SkipMeans(s[5..], rest);
      var a :| AllSpace(a) && s[5..] == a + rest;
      var b := rest[|arrows|..];
      var i := SkippedPart(b);
      assert b[..i] == b;
      assert rest == arrows + b && s == "block" + (a + (arrows + b));
    }
  }

  lemma NothingToSkip()
    ensures SkipSpace("") == ""
  {
  }

  // -- whole lines -----------------------------------------------------------------------------------

  /** What opens with arrows and the keyword, read part by part. */
  lemma OpenedMeans(line: string, arrows: string, rest: string)
    requires StartsSolid(rest) && (arrows == OPENS || arrows == CLOSES)
    ensures Opened(line, arrows, rest) <==>
              && "#" <= line
              && var body := SkipSpace(line[1..]); arrows <= body && AfterKeyword(SkipSpace(body[3..])) == Some(rest)
  {
    hide IsSpace, SkipSpace, AfterKeyword, Commented, Arrowed, Keyworded;
    NamesAreSolid();
    if Opened(line, arrows, rest) {
      var s, t :| Commented(line, s) && Arrowed(s, arrows, t) && Keyworded(t, rest);
      KeywordMeans(t, rest);
      KeywordStarts(t);
      ArrowsMean(s, arrows, t);
      ArrowsStart(s, arrows);
      CommentMeans(line, s);
    }
    if "#" <= line {
      var body := SkipSpace(line[1..]);
      if arrows <= body {
        var t := SkipSpace(body[3..]);
        if AfterKeyword(t) == Some(rest) {
          ArrowsStart(body, arrows);
          CommentMeans(line, body);
          KeywordStarts(t);
          ArrowsMean(body, arrows, t);
          KeywordMeans(t, rest);
        }
      }
    }
  }

  lemma KeywordStarts(s: string)
    requires AfterKeyword(s).Some?
    ensures StartsSolid(s) && s[0] == 't'
  {
    hide SkipSpace;
    assert s[0] == KEYWORD[0];
  }

  lemma ArrowsStart(s: string, arrows: string)
    requires arrows <= s && (arrows == OPENS || arrows == CLOSES)
    ensures StartsSolid(s) && (s[0] == '>' || s[0] == '<') && (arrows == OPENS <==> s[0] == '>')
  {
    assert s[0] == arrows[0];
  }

  /** A line is each kind of marker exactly when it is made of the parts of that kind's pattern. */
  lemma KindMeans(line: string)
    ensures forall m :: KindOf(line) == RegionBegin(m) <==> IsBegin(line, m)
    ensures forall slug :: KindOf(line) == RegionEnd(slug) <==> IsEnd(line, slug)
    ensures KindOf(line) == BlockBegin <==> IsBlockLine(line, OPENS)
    ensures KindOf(line) == BlockEnd <==> IsBlockLine(line, CLOSES)
    ensures forall m :: KindOf(line) == Member(m) <==> IsIdentity(line, m)
  {
    hide KindOf, IsBegin, IsEnd, IsBlockLine, IsIdentity;
    forall m ensures KindOf(line) == RegionBegin(m) <==> IsBegin(line, m) {
      BeginMeans(line, m);
    }
    forall slug ensures KindOf(line) == RegionEnd(slug) <==> IsEnd(line, slug) {
      EndMeans(line, slug);
    }
    BlockLineMeans(line);
    forall m ensures KindOf(line) == Member(m) <==> IsIdentity(line, m) {
      IdentityMeans(line, m);
    }
  }

  lemma BeginMeans(line: string, m: Mark)
    ensures KindOf(line) == RegionBegin(m) <==> IsBegin(line, m)
  {
    hide IsSpace, SkipSpace, AfterKeyword, MarkFrom, IsBlockMarker, LastField, Opened, Marks;
    NamesAreSolid();
    if IsBegin(line, m) {
      var s :| Opened(line, OPENS, s) && Marks(s, m, OPENS);
      MarksStart(s, m, OPENS);
      OpenedMeans(line, OPENS, s);
      MarksMean(s, m, OPENS);
    }
    if KindOf(line) == RegionBegin(m) {
      var s := AfterKeyword(SkipSpace(SkipSpace(line[1..])[3..])).value;
      MarksMean(s, m, OPENS);
      MarksStart(s, m, OPENS);
      OpenedMeans(line, OPENS, s);
    }
  }

  lemma EndMeans(line: string, slug: string)
    ensures KindOf(line) == RegionEnd(slug) <==> IsEnd(line, slug)
  {
    hide IsSpace, SkipSpace, AfterKeyword, MarkFrom, IsBlockMarker, LastField, Opened, NamedLast;
    NamesAreSolid();
    if IsEnd(line, slug) {
      var s :| Opened(line, CLOSES, s) && NamedLast(s, "task=", slug, CLOSES);
      NamedLastStarts(s, "task=", slug, CLOSES);
      OpenedMeans(line, CLOSES, s);
      LastFieldMeans(s, "task=", slug, CLOSES);
      ClosesNotOpens(SkipSpace(line[1..]));
    }
    if KindOf(line) == RegionEnd(slug) {
      var s := AfterKeyword(SkipSpace(SkipSpace(line[1..])[3..])).value;
      LastFieldMeans(s, "task=", slug, CLOSES);
      NamedLastStarts(s, "task=", slug, CLOSES);
      OpenedMeans(line, CLOSES, s);
    }
  }

  lemma ClosesNotOpens(s: string)
    ensures !(OPENS <= s && CLOSES <= s)
    ensures AfterKeyword(s).Some? ==> !(OPENS <= s) && !(CLOSES <= s)
  {
    hide SkipSpace;
    if OPENS <= s {
      ArrowsStart(s, OPENS);
    }
    if CLOSES <= s {
      ArrowsStart(s, CLOSES);
    }
    if AfterKeyword(s).Some? {
      KeywordStarts(s);
    }
  }

  lemma BlockLineMeans(line: string)
    ensures KindOf(line) == BlockBegin <==> IsBlockLine(line, OPENS)
    ensures KindOf(line) == BlockEnd <==> IsBlockLine(line, CLOSES)
  {
    hide IsSpace, SkipSpace, AfterKeyword, MarkFrom, IsBlockMarker, LastField, Opened, BlockWord;
    NamesAreSolid();
    forall arrows | IsBlockLine(line, arrows) && (arrows == OPENS || arrows == CLOSES)
      ensures KindOf(line) == if arrows == OPENS then BlockBegin else BlockEnd
    {
      var s :| Opened(line, arrows, s) && BlockWord(s, arrows);
      BlockMeans(s, arrows);
      OpenedMeans(line, arrows, s);
      BlockHasNoMarks(s, arrows);
      ClosesNotOpens(SkipSpace(line[1..]));
    }
    if KindOf(line).BlockBegin? || KindOf(line).BlockEnd? {
      var arrows := if KindOf(line).BlockBegin? then OPENS else CLOSES;
      var s := AfterKeyword(SkipSpace(SkipSpace(line[1..])[3..])).value;
      BlockMeans(s, arrows);
      OpenedMeans(line, arrows, s);
    }
  }

  lemma BlockHasNoMarks(s: string, arrows: string)
    requires "block" <= s
    ensures MarkFrom(s, arrows).None? && LastField("task=", s, arrows).None?
  {
    hide Word, TrimRight, SkipSpace;
    assert s[0] == "block"[0] && "task="[0] != "block"[0];
  }

  lemma IdentityMeans(line: string, m: Mark)
    ensures KindOf(line) == Member(m) <==> IsIdentity(line, m)
  {
    hide IsSpace, SkipSpace, AfterKeyword, MarkFrom, IsBlockMarker, LastField, Commented, Keyworded, Marks;
    NamesAreSolid();
    if IsIdentity(line, m) {
      var s, t :| Commented(line, s) && Keyworded(s, t) && Marks(t, m, "");
      MarksStart(t, m, "");
      KeywordMeans(s, t);
      KeywordStarts(s);
      CommentMeans(line, s);
      MarksMean(t, m, "");
      ClosesNotOpens(s);
    }
    if KindOf(line) == Member(m) {
      var s := SkipSpace(line[1..]);
      var t := AfterKeyword(s).value;
      MarksMean(t, m, "");
      MarksStart(t, m, "");
      KeywordStarts(s);
      CommentMeans(line, s);
      KeywordMeans(s, t);
    }
  }
}
