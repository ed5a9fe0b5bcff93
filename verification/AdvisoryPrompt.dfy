/** Demotion of governed Markdown headings inside advisory text, so that text
    supplied by a user cannot open a section the runtime reserves for itself. */
module AdvisoryPrompt {
  import opened Text
  import opened LineText

  const PREFIX := "Advisory reference heading: "

  const GOVERNED: seq<string> := [
    "runtime self context", "standing instructions", "tool usage policy", "soul guidance",
    "user context", "resolved runtime identity", "session profile", "memory summary",
    "advisory durable recall", "identity", "imported identity.md", "imported identity.json"]

  // ------------------------------------------------------------ heading text

  function LeadingHashes(s: string): (n: nat)
    ensures n <= |s|
    ensures forall i :: 0 <= i < n ==> s[i] == '#'
    ensures n < |s| ==> s[n] != '#'
  {
    if s != "" && s[0] == '#' then 1 + LeadingHashes(s[1..]) else 0
  }

  /** The text of a Markdown heading; a heading has one to six `#` and needs no
      space after them. */
  function HeadingText(line: string): Option<string>
  {
    var depth := LeadingHashes(line);
    var text := Trim(line[depth..]);
    if depth == 0 || depth > 6 || text == "" then None else Some(text)
  }

  method MarkdownHeadingText(line: string) returns (r: Option<string>)
    ensures r == HeadingText(line)
  {
    var depth := 0;
    while depth < |line| && line[depth] == '#'
      invariant depth <= |line|
      invariant LeadingHashes(line) == depth + LeadingHashes(line[depth..])
    {
      assert line[depth..][1..] == line[depth + 1..];
      depth := depth + 1;
    }
    if depth == 0 || depth > 6 {
      return None;
    }
    var heading := Trim(line[depth..]);
    r := if heading == "" then None else Some(heading);
  }

  function TrimEndHashes(s: string): (r: string)
    ensures |r| <= |s| && r == s[..|r|]
    ensures forall i :: |r| <= i < |s| ==> s[i] == '#'
    ensures r == "" || r[|r| - 1] != '#'
  {
    if s != "" && s[|s| - 1] == '#' then TrimEndHashes(s[..|s| - 1]) else s
  }

  function StripClosingSequence(heading: string): string
  {
    var without := TrimEndHashes(heading);
    if |without| == |heading| then heading
    else if without == "" || !IsWhitespace(without[|without| - 1]) then heading
    else if TrimEnd(without) == "" then heading
    else TrimEnd(without)
  }

  function DisplayHeading(heading: string): string
  {
    StripClosingSequence(Trim(heading))
  }

  function NormalizedHeading(heading: string): string
  {
    ToAsciiLower(DisplayHeading(heading))
  }

  predicate IsHeading(line: string)
  {
    HeadingText(Trim(line)).Some?
  }

  /** The line is a heading whose normalized text is reserved. */
  predicate Governed(line: string)
  {
    IsHeading(line) && NormalizedHeading(HeadingText(Trim(line)).value) in GOVERNED
  }

  // ------------------------------------------------------------ demotion

  function DemoteLine(index: nat, line: string, allowed: seq<string>, root: Option<nat>): string
  {
    match HeadingText(Trim(line))
    case None => line
    case Some(heading) =>
      if root == Some(index) && NormalizedHeading(heading) in allowed then line
      else if NormalizedHeading(heading) !in GOVERNED then line
      else PREFIX + DisplayHeading(heading)
  }

  /** The first line that is a heading. */
  method FirstMarkdownHeadingLineIndex(content: string) returns (r: Option<nat>)
    ensures match r
      case None => forall i :: 0 <= i < |Lines(content)| ==> !IsHeading(Lines(content)[i])
      case Some(k) => k < |Lines(content)| && IsHeading(Lines(content)[k])
                      && forall i :: 0 <= i < k ==> !IsHeading(Lines(content)[i])
  {
    var lines := Lines(content);
    for k := 0 to |lines|
      invariant forall i :: 0 <= i < k ==> !IsHeading(lines[i])
    {
      var text := MarkdownHeadingText(Trim(lines[k]));
      if text.Some? {
        return Some(k);
      }
    }
    return None;
  }

  /** Line `i` of the advisory text is still a governed heading after demotion
      exactly when it is the first heading of the text and an allowed root. */
  ghost predicate RootKept(content: string, allowed: seq<string>, i: nat)
    requires i < |Lines(content)|
  {
    && Governed(Lines(content)[i])
    && NormalizedHeading(HeadingText(Trim(Lines(content)[i])).value) in allowed
    && forall j :: 0 <= j < i ==> !IsHeading(Lines(content)[j])
  }

  /** A line stands for line `i` of the content: verbatim, unless that is a governed
      heading that is not kept, which becomes a plain line. */
  ghost predicate DemotedLine(content: string, allowed: seq<string>, i: nat, line: string)
    requires i < |Lines(content)|
  {
    && '\n' !in line
    && (Governed(line) <==> RootKept(content, allowed, i))
    && (if Governed(Lines(content)[i]) && !RootKept(content, allowed, i)
        then line == "Advisory reference heading: " + DisplayHeading(HeadingText(Trim(Lines(content)[i])).value) && !IsHeading(line)
        else line == Lines(content)[i])
  }

  /** The rendered lines stand one for one for the lines of the content. */
  ghost predicate Demoted(content: string, allowed: seq<string>, rendered: seq<string>)
  {
    && |rendered| == |Lines(content)|
    && forall i :: 0 <= i < |rendered| ==> DemotedLine(content, allowed, i, rendered[i])
  }

  ghost predicate DemotedText(content: string, allowed: seq<string>, text: string)
  {
    exists rendered :: Demoted(content, allowed, rendered) && text == Join(rendered, "\n")
  }

  method DemoteGovernedAdvisoryHeadingsWithAllowedRoots(content: string, allowed: seq<string>)
    returns (r: string)
    ensures DemotedText(content, allowed, r)
  {
    var root := FirstMarkdownHeadingLineIndex(content);
    var lines := Lines(content);
    var renderedLines: seq<string> := [];
    for k := 0 to |lines|
      invariant |renderedLines| == k
      invariant forall i :: 0 <= i < k ==> renderedLines[i] == DemoteLine(i, lines[i], allowed, root)
    {
      renderedLines := renderedLines + [DemoteLine(k, lines[k], allowed, root)];
    }
    forall i | 0 <= i < |lines|
      ensures DemotedLine(content, allowed, i, renderedLines[i])
    {
      DemoteLineMeaning(content, allowed, root, i);
    }
    assert Demoted(content, allowed, renderedLines);
    r := Join(renderedLines, "\n");
  }

  ghost predicate IsRoot(content: string, root: Option<nat>)
  {
    match root
    case None => forall i :: 0 <= i < |Lines(content)| ==> !IsHeading(Lines(content)[i])
    case Some(k) => k < |Lines(content)| && IsHeading(Lines(content)[k])
                    && forall i :: 0 <= i < k ==> !IsHeading(Lines(content)[i])
  }

  lemma RootIsFirst(content: string, root: Option<nat>, i: nat)
    requires IsRoot(content, root) && i < |Lines(content)| && IsHeading(Lines(content)[i])
    ensures root == Some(i) <==> forall j :: 0 <= j < i ==> !IsHeading(Lines(content)[j])
  {
    hide IsHeading;
    hide Lines;
  }

  lemma DemoteLineMeaning(content: string, allowed: seq<string>, root: Option<nat>, i: nat)
    requires IsRoot(content, root) && i < |Lines(content)|
    ensures DemotedLine(content, allowed, i, DemoteLine(i, Lines(content)[i], allowed, root))
  {
    hide IsRoot;
    hide Lines;
    hide GOVERNED;
    hide HeadingText;
    hide NormalizedHeading;
    hide DisplayHeading;
    var line := Lines(content)[i];
    if IsHeading(line) {
      RootIsFirst(content, root, i);
      var heading := HeadingText(Trim(line)).value;
      DemotedIsPlain(DisplayHeading(heading));
      DisplayIsInfix(line);
    }
  }

  lemma DemotedIsPlain(display: string)
    ensures !IsHeading(PREFIX + display)
  {
    PlainStart(PREFIX + display);
  }

  lemma PlainStart(line: string)
    requires line != "" && !IsWhitespace(line[0]) && line[0] != '#'
    ensures !IsHeading(line)
  {
    hide TrimStart;
    hide TrimEnd;
    var a, b := TrimSplit(line);
    assert a == "";
    assert Trim(line) == "" || Trim(line)[0] == line[0];
  }

  /** A heading's display text holds only characters of its line. */
  lemma DisplayIsInfix(line: string)
    requires '\n' !in line && IsHeading(line)
    ensures '\n' !in DisplayHeading(HeadingText(Trim(line)).value)
  {
    var t := Trim(line);
    TrimKeepsFree(line);
    var rest := t[LeadingHashes(t)..];
    TrimKeepsFree(rest);
    TrimKeepsFree(Trim(rest));
    var h := Trim(Trim(rest));
    var gap, close := StripSplit(h);
    var display := StripClosingSequence(h);
    assert forall i :: 0 <= i < |display| ==> display[i] == h[i];
  }

  lemma TrimKeepsFree(s: string)
    requires '\n' !in s
    ensures '\n' !in Trim(s)
  {
    var a, b := TrimSplit(s);
    forall i | 0 <= i < |Trim(s)| ensures Trim(s)[i] != '\n' {
      assert Trim(s)[i] == s[|a| + i];
    }
  }

  /** Demoting a second time changes no line. */
  lemma DemotionIsStable(index: nat, line: string, root: Option<nat>, index': nat, root': Option<nat>)
    ensures var once := DemoteLine(index, line, [], root);
      DemoteLine(index', once, [], root') == once && !Governed(once)
  {
    if Governed(line) {
      DemotedIsPlain(DisplayHeading(HeadingText(Trim(line)).value));
    }
  }

  // ------------------------------------------------- what a governed heading is

  ghost predicate Hashes(s: string)
  {
    forall i :: 0 <= i < |s| ==> s[i] == '#'
  }

  /** White space and then hashes, the optional closing sequence of a heading. */
  ghost predicate Closing(gap: string, hashes: string)
  {
    Blank(gap) && Hashes(hashes) && (gap == "" <==> hashes == "")
  }

  /** The spelling of a governed heading, left to right. */
  ghost predicate Spelling(line: string, a: string, open: string, gap: string, title: string,
                           gap': string, close: string, b: string)
  {
    && Blank(a) && Blank(gap) && Blank(b)
    && Hashes(open) && 1 <= |open| <= 6
    && Closing(gap', close)
    && ToAsciiLower(title) in GOVERNED
    && line == a + (open + (gap + (title + (gap' + close)))) + b
  }

  ghost predicate SpelledAsGoverned(line: string)
  {
    exists a, open, gap, title, gap', close, b :: Spelling(line, a, open, gap, title, gap', close, b)
  }

  /** No white space and no hash at either end. */
  predicate Solid(s: string)
  {
    s != "" && Trimmed(s) && s[0] != '#' && s[|s| - 1] != '#'
  }

  lemma GovernedNamesAreSolid()
    ensures forall k :: 0 <= k < |GOVERNED| ==> Solid(GOVERNED[k])
  {
  }

  lemma GovernedTitleIsSolid(title: string)
    requires ToAsciiLower(title) in GOVERNED
    ensures Solid(title)
  {
    hide GOVERNED;
    GovernedNamesAreSolid();
    var name := ToAsciiLower(title);
    var k :| 0 <= k < |GOVERNED| && GOVERNED[k] == name;
    assert name[0] == AsciiLower(title[0]);
    assert name[|name| - 1] == AsciiLower(title[|title| - 1]);
  }

  lemma {:induction false} LeadingHashesOf(open: string, rest: string)
    requires Hashes(open) && rest != "" && rest[0] != '#'
    ensures LeadingHashes(open + rest) == |open| && (open + rest)[|open|..] == rest
  {
    if open == "" {
      assert open + rest == rest;
    } else {
      LeadingHashesOf(open[1..], rest);
      assert (open + rest)[1..] == open[1..] + rest;
    }
  }

  lemma {:induction false} TrimEndHashesOf(s: string, close: string)
    requires Hashes(close) && s != "" && s[|s| - 1] != '#'
    ensures TrimEndHashes(s + close) == s
  {
    if close == "" {
      assert s + close == s;
    } else {
      var n := |close| - 1;
      TrimEndHashesOf(s, close[..n]);
      assert (s + close)[..|s + close| - 1] == s + close[..n];
    }
  }

  lemma StripOfSpelling(title: string, gap: string, close: string)
    requires Solid(title) && Closing(gap, close)
    ensures Trimmed(title + (gap + close))
    ensures StripClosingSequence(title + (gap + close)) == title
  {
    var s := title + (gap + close);
    assert s == (title + gap) + close;
    TrimEndHashesOf(title + gap, close);
    TrimEndPad(title, gap);
    if close == "" {
      assert s == title;
    } else {
      assert (title + gap)[|title + gap| - 1] == gap[|gap| - 1];
      assert s[|s| - 1] == close[|close| - 1];
    }
  }

  lemma HeadingOfSpelling(a: string, open: string, gap: string, body: string, b: string)
    requires Blank(a) && Blank(gap) && Blank(b) && Hashes(open) && 1 <= |open| <= 6
    requires body != "" && Trimmed(body) && body[0] != '#'
    ensures HeadingText(Trim(a + (open + (gap + body)) + b)) == Some(body)
  {
    var core := open + (gap + body);
    TrimPad(a, core, b);
    assert Trimmed(core) by {
      assert core[0] == '#' && core[|core| - 1] == body[|body| - 1];
    }
    TrimOfTrimmed(core);
    assert (gap + body)[0] != '#';
    LeadingHashesOf(open, gap + body);
    TrimPad(gap, body, "");
    assert gap + body + "" == gap + body;
    TrimOfTrimmed(body);
  }

  lemma SpelledIsGoverned(line: string, a: string, open: string, gap: string, title: string,
                          gap': string, close: string, b: string)
    requires Spelling(line, a, open, gap, title, gap', close, b)
    ensures Governed(line)
  {
    hide Trim;
    hide HeadingText;
    hide StripClosingSequence;
    GovernedTitleIsSolid(title);
    var body := title + (gap' + close);
    StripOfSpelling(title, gap', close);
    HeadingOfSpelling(a, open, gap, body, b);
    TrimOfTrimmed(body);
  }

  lemma StripSplit(h: string) returns (gap: string, close: string)
    ensures Closing(gap, close) && h == StripClosingSequence(h) + (gap + close)
  {
    gap, close := "", "";
    var without := TrimEndHashes(h);
    if StripClosingSequence(h) == h {
      assert h == h + ("" + "");
    } else {
      gap := TrimEndSplit(without);
      close := h[|without|..];
      assert h == without + close;
      assert h == TrimEnd(without) + (gap + close);
    }
  }

  lemma HeadingSplit(line: string) returns (a: string, open: string, gap: string, b: string)
    requires IsHeading(line)
    ensures Blank(a) && Hashes(open) && 1 <= |open| <= 6 && Blank(gap) && Blank(b)
    ensures line == a + (open + (gap + HeadingText(Trim(line)).value)) + b
    ensures Trim(HeadingText(Trim(line)).value) == HeadingText(Trim(line)).value
  {
    hide TrimStart;
    hide TrimEnd;
    var c, b0;
    a, c := TrimSplit(line);
    var t := Trim(line);
    var depth := LeadingHashes(t);
    open := t[..depth];
    var rest := t[depth..];
    gap, b0 := TrimSplit(rest);
    TrimIdempotent(rest);
    b := b0 + c;
    SpellingRegroup(line, a, t, open, rest, gap, Trim(rest), b0, c);
  }

  lemma GovernedIsSpelled(line: string)
    requires Governed(line)
    ensures SpelledAsGoverned(line)
  {
    hide StripClosingSequence;
    hide ToAsciiLower;
    hide HeadingText;
    hide Trim;
    hide GOVERNED;
    var a, open, gap, b := HeadingSplit(line);
    var h := HeadingText(Trim(line)).value;
    var gap', close := StripSplit(h);
    assert Spelling(line, a, open, gap, StripClosingSequence(h), gap', close, b);
  }

  lemma SpellingRegroup(line: string, a: string, t: string, open: string, rest: string, gap: string,
                        h: string, b0: string, b: string)
    requires line == a + t + b && t == open + rest && rest == gap + h + b0
    ensures line == a + (open + (gap + h)) + (b0 + b)
  {
    assert t == (open + (gap + h)) + b0;
  }

  /** A line is a governed heading exactly when it is one to six hashes, a reserved
      title in any letter case, and an optional closing sequence, with white space
      allowed around each. */
  lemma GovernedExactly(line: string)
    ensures Governed(line) <==> SpelledAsGoverned(line)
  {
    hide Governed;
    hide Spelling;
    if Governed(line) {
      GovernedIsSpelled(line);
    }
    if SpelledAsGoverned(line) {
      var a, open, gap, title, gap', close, b :| Spelling(line, a, open, gap, title, gap', close, b);
      SpelledIsGoverned(line, a, open, gap, title, gap', close, b);
    }
  }

  /** White space at the ends of a line does not matter. */
  lemma GovernedTrim(x: string, y: string)
    requires Trim(x) == Trim(y)
    ensures Governed(x) <==> Governed(y)
  {
  }
}
