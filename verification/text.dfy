/**
 Texts over an alphabet whose only line break is '\n'.

 A text is kept as its lines and whether the last one is terminated.  Content and SplitLines
 are inverse to each other (ContentOfSplit, SplitOfContent), so a Text says neither more nor
 less than the string it stands for; Splice is the joining of kept line slices that every
 rewrite of a crontab comes down to (ContentOfSplice).
 */
module Texts {

  datatype Text = Text(lines: seq<string>, closed: bool)

  const EMPTY := Text([], true)

  ghost predicate WellFormed(t: Text) {
    && (forall l | l in t.lines :: '\n' !in l)
    && (!t.closed ==> t.lines != [] && t.lines[|t.lines| - 1] != "")
  }

  /** The lines joined, each followed by a newline. */
  function Ended(lines: seq<string>): string {
    if lines == [] then "" else lines[0] + "\n" + Ended(lines[1..])
  }

  function Content(t: Text): string
    decreases |t.lines|
  {
    if t.lines == [] then ""
    else if |t.lines| == 1 && !t.closed then t.lines[0]
    else t.lines[0] + "\n" + Content(Text(t.lines[1..], t.closed))
  }

  /** Index of the first newline, or the length when there is none. */
  function FirstBreak(s: string): (i: nat)
    ensures i <= |s|
    ensures '\n' !in s[..i]
    ensures i < |s| ==> s[i] == '\n'
  {
    if s == "" || s[0] == '\n' then 0 else 1 + FirstBreak(s[1..])
  }

  function SplitLines(s: string): Text
    decreases |s|
  {
    var i := FirstBreak(s);
    if s == "" then EMPTY
    else if i == |s| then Text([s], false)
    else
      var rest := SplitLines(s[i + 1..]);
      Text([s[..i]] + rest.lines, rest.closed)
  }

  lemma ContentOfFew(line: string)
    ensures Content(EMPTY) == "" && Content(Text([line], false)) == line
  {
  }

  lemma ContentOfMore(line: string, rest: Text)
    requires rest.lines == [] ==> rest.closed
    ensures Content(Text([line] + rest.lines, rest.closed)) == line + "\n" + Content(rest)
  {
    assert ([line] + rest.lines)[1..] == rest.lines;
  }

  lemma {:induction false} ContentOfSplit(s: string)
    ensures Content(SplitLines(s)) == s
    ensures WellFormed(SplitLines(s))
    decreases |s|
  {
    hide Content, FirstBreak;
    var i := FirstBreak(s);
    if s == "" {
      ContentOfFew("");
    } else if i == |s| {
      assert s[..i] == s;
      ContentOfFew(s);
    } else {
      var rest := SplitLines(s[i + 1..]);
      ContentOfSplit(s[i + 1..]);
      ContentOfMore(s[..i], rest);
      assert s == s[..i] + "\n" + s[i + 1..];
    }
  }

  lemma {:induction false} BreakOf(l: string, rest: string)
    requires '\n' !in l
    ensures FirstBreak(l + "\n" + rest) == |l|
  {
    var s := l + "\n" + rest;
    if l != "" {
      assert s[1..] == l[1..] + "\n" + rest;
      BreakOf(l[1..], rest);
    }
  }

  lemma {:induction false} NoBreak(l: string)
    requires '\n' !in l
    ensures FirstBreak(l) == |l|
  {
    if l != "" {
      NoBreak(l[1..]);
    }
  }

  lemma SplitNothing()
    ensures SplitLines("") == EMPTY
  {
  }

  lemma SplitLast(line: string)
    requires '\n' !in line && line != ""
    ensures SplitLines(line) == Text([line], false)
  {
    NoBreak(line);
  }

  lemma SplitFirst(line: string, rest: string)
    requires '\n' !in line
    ensures SplitLines(line + "\n" + rest) == Text([line] + SplitLines(rest).lines, SplitLines(rest).closed)
  {
    var s := line + "\n" + rest;
    BreakOf(line, rest);
    assert s[..|line|] == line;
    assert s[|line| + 1..] == rest;
  }

  lemma {:induction false} SplitOfContent(t: Text)
    requires WellFormed(t)
    ensures SplitLines(Content(t)) == t
    decreases |t.lines|
  {
    hide SplitLines, FirstBreak;
    SplitNothing();
    if t.lines != [] {
      if |t.lines| == 1 && !t.closed {
        SplitLast(t.lines[0]);
      } else {
        var rest := Text(t.lines[1..], t.closed);
        SplitOfContent(rest);
        SplitFirst(t.lines[0], Content(rest));
      }
    }
  }

  /** The text with its last line terminated: what appending to it starts from. */
  function Close(t: Text): Text {
    t.(closed := true)
  }

  /** Everything from line j on. */
  function Tail(t: Text, j: nat): Text
    requires j <= |t.lines|
  {
    Text(t.lines[j..], t.closed || j == |t.lines|)
  }

  /** Lines i up to j cut out, and the complete lines mid put in their place. */
  function Splice(t: Text, i: nat, j: nat, mid: seq<string>): Text
    requires i <= j <= |t.lines|
  {
    Text(t.lines[..i] + mid + t.lines[j..], t.closed || j == |t.lines|)
  }

  lemma {:induction false} ContentOfEnded(lines: seq<string>, t: Text)
    requires t.lines == [] ==> t.closed
    ensures Content(Text(lines + t.lines, t.closed)) == Ended(lines) + Content(t)
    decreases |lines|
  {
    if lines == [] {
      assert lines + t.lines == t.lines;
    } else {
      ContentOfEnded(lines[1..], t);
      assert (lines + t.lines)[1..] == lines[1..] + t.lines;
    }
  }

  /** A splice is the concatenation of the kept slices around the new lines. */
  lemma ContentOfSplice(t: Text, i: nat, j: nat, mid: seq<string>)
    requires i <= j <= |t.lines|
    ensures Content(Splice(t, i, j, mid)) == Ended(t.lines[..i]) + Ended(mid) + Content(Tail(t, j))
  {
    var tail := Tail(t, j);
    ContentOfEnded(mid, tail);
    ContentOfEnded(t.lines[..i], Text(mid + tail.lines, tail.closed));
    assert t.lines[..i] + (mid + tail.lines) == t.lines[..i] + mid + t.lines[j..];
    assert mid + tail.lines == [] ==> tail.closed;
  }

  /** Appending complete lines: a separator goes in exactly when the last line lacks its newline. */
  lemma {:induction false} ContentOfClose(t: Text)
    requires t.lines != []
    ensures Content(Close(t)) == Content(t) + (if t.closed then "" else "\n")
    decreases |t.lines|
  {
    if !t.closed && |t.lines| > 1 {
      ContentOfClose(Text(t.lines[1..], t.closed));
    } else if !t.closed {
      assert Content(Close(t)) == t.lines[0] + "\n" + "";
    }
  }
}
