/** The label matcher's glob compiler (scripts/sync_github_labels.py): a small
    glob language is validated, compiled to a regular expression and matched
    against repository paths. The regular expression is an abstract syntax tree
    with a language semantics; the reference it is proved against is a matcher
    that walks the pattern's and the path's `/`-separated segments. */
module Glob {
  import opened Text

  // ---------------------------------------------------------------- regexes

  /** The constructs the compiler emits: a literal, `[^/]`, `.`, concatenation,
      `*` and `+`. */
  datatype Regex =
    | Lit(c: char)
    | NotSlash
    | Dot
    | Cat(first: Regex, second: Regex)
    | Star(body: Regex)
    | Plus(body: Regex)

  /** The language of a regular expression. `.` does not match a newline. */
  ghost predicate Matches(r: Regex, s: string)
    decreases |s|, r, 1
  {
    match r
    case Lit(c) => s == [c]
    case NotSlash => |s| == 1 && s[0] != '/'
    case Dot => |s| == 1 && s[0] != '\n'
    case Cat(_, _) => exists k: nat :: MatchesCatAt(r, s, k)
    case Star(_) => s == "" || exists k: nat :: MatchesRepeatAt(r, s, k)
    case Plus(_) => Matches(r.body, s) || exists k: nat :: MatchesRepeatAt(r, s, k)
  }

  /** The first factor takes `k` characters, the second the rest. */
  ghost predicate MatchesCatAt(r: Regex, s: string, k: nat)
    requires r.Cat?
    decreases |s|, r, 0
  {
    k <= |s| && Matches(r.first, s[..k]) && Matches(r.second, s[k..])
  }

  /** One repetition takes `k > 0` characters, further repetitions the rest. */
  ghost predicate MatchesRepeatAt(r: Regex, s: string, k: nat)
    requires r.Star? || r.Plus?
    decreases |s|, r, 0
  {
    0 < k <= |s| && Matches(r.body, s[..k]) && Matches(r, s[k..])
  }

  /** The concatenation of a list of parts. */
  ghost predicate MatchesAll(parts: seq<Regex>, s: string)
    decreases |parts|, 1
  {
    if parts == [] then s == "" else exists k: nat :: MatchesAllAt(parts, s, k)
  }

  ghost predicate MatchesAllAt(parts: seq<Regex>, s: string, k: nat)
    requires parts != []
    decreases |parts|, 0
  {
    k <= |s| && Matches(parts[0], s[..k]) && MatchesAll(parts[1..], s[k..])
  }

  /** `^parts$` tried at the start of `s`: `$` also accepts just before one final newline. */
  ghost predicate Accepts(parts: seq<Regex>, s: string)
  {
    MatchesAll(parts, s) || (s != "" && s[|s| - 1] == '\n' && MatchesAll(parts, s[..|s| - 1]))
  }

  // ------------------------------------------------------------ the compiler

  /** What one pattern segment compiles to, character by character. */
  function SegmentParts(segment: string): seq<Regex>
  {
    if segment == "" then [] else [CharPart(segment[0])] + SegmentParts(segment[1..])
  }

  function CharPart(c: char): Regex
  {
    if c == '*' then Star(NotSlash) else if c == '?' then NotSlash else Lit(c)
  }

  const DIRECTORIES := Star(Cat(Plus(NotSlash), Lit('/')))

  /** What one segment of a pattern compiles to, with the slash that follows it. */
  function PieceParts(segment: string, isLast: bool): seq<Regex>
  {
    if segment == "**" then [if isLast then Star(Dot) else DIRECTORIES]
    else SegmentParts(segment) + (if isLast then [] else [Lit('/')])
  }

  /** What a list of pattern segments compiles to. */
  function PatternParts(segments: seq<string>): seq<Regex>
  {
    if segments == [] then []
    else PieceParts(segments[0], |segments| == 1) + PatternParts(segments[1..])
  }

  method GlobSegmentToRegex(segment: string) returns (parts: seq<Regex>)
    ensures parts == SegmentParts(segment)
  {
    parts := [];
    for i := 0 to |segment|
      invariant parts + SegmentParts(segment[i..]) == SegmentParts(segment)
    {
      if segment[i] == '*' {
        parts := parts + [Star(NotSlash)];
      } else if segment[i] == '?' {
        parts := parts + [NotSlash];
      } else {
        parts := parts + [Lit(segment[i])];
      }
      assert segment[i..][1..] == segment[i + 1..];
    }
  }

  method GlobPatternToRegex(pattern: string) returns (r: Result<seq<Regex>, string>)
    ensures r.Ok? <==> Supported(Normalized(pattern))
    ensures r.Err? <==> Refused(Normalized(pattern))
    ensures r.Ok? ==> r.value == PatternParts(Split(Normalized(pattern), '/'))
  {
    hide Refused;
    hide Supported;
    hide Normalized;
    hide Holds;
    hide HasStarsWithin;
    hide TokensError;
    hide StarsError;
    hide UnsupportedGlobConstructs;
    hide PatternParts;
    hide SegmentParts;
    var normalized := ValidateSupportedGlobPattern(pattern);
    if normalized.Err? {
      return Err(normalized.error);
    }
    var segments := Split(normalized.value, '/');
    hide Split;
    var parts: seq<Regex> := [];
    assert segments[0..] == segments;
    for i := 0 to |segments|
      invariant parts + PatternParts(segments[i..]) == PatternParts(segments)
    {
      PatternPartsFrom(segments, i);
      var isLast := i == |segments| - 1;
      var piece := [if isLast then Star(Dot) else DIRECTORIES];
      if segments[i] != "**" {
        piece := GlobSegmentToRegex(segments[i]);
        if !isLast {
          piece := piece + [Lit('/')];
        }
      }
      assert piece == PieceParts(segments[i], isLast);
      parts := parts + piece;
    }
    PatternPartsNone(segments[|segments|..]);
    r := Ok(parts);
  }

  lemma PatternPartsFrom(segments: seq<string>, i: nat)
    requires i < |segments|
    ensures PatternParts(segments[i..]) == PieceParts(segments[i], i == |segments| - 1) + PatternParts(segments[i + 1..])
  {
    assert segments[i..][1..] == segments[i + 1..];
  }

  lemma PatternPartsNone(segments: seq<string>)
    requires segments == []
    ensures PatternParts(segments) == []
  {
  }

  // --------------------------------------------------- normalising, validating

  function ForwardSlashes(path: string): (r: string)
    ensures |r| == |path|
    ensures forall i :: 0 <= i < |path| ==> r[i] == if path[i] == '\\' then '/' else path[i]
  {
    seq(|path|, i requires 0 <= i < |path| => if path[i] == '\\' then '/' else path[i])
  }

  function DropDotSlash(path: string): string
  {
    if StartsWith(path, "./") then DropDotSlash(path[2..]) else path
  }

  function Normalized(path: string): string
  {
    DropDotSlash(ForwardSlashes(path))
  }

  method NormalizeRepoPath(path: string) returns (normalized: string)
    ensures normalized == Normalized(path)
  {
    normalized := ForwardSlashes(path);
    while StartsWith(normalized, "./")
      invariant DropDotSlash(normalized) == Normalized(path)
      decreases |normalized|
    {
      normalized := normalized[2..];
    }
  }

  /** Normalising leaves no backslash and no leading `./`, and nothing to do a second time. */
  lemma NormalizedIsNormal(path: string)
    ensures '\\' !in Normalized(path)
    ensures !StartsWith(Normalized(path), "./")
    ensures Normalized(Normalized(path)) == Normalized(path)
  {
    DropDotSlashSuffix(ForwardSlashes(path));
    assert ForwardSlashes(Normalized(path)) == Normalized(path);
  }

  /** `./` written `n` times. */
  function DotSlashes(n: nat): string
  {
    if n == 0 then "" else "./" + DotSlashes(n - 1)
  }

  /** Normalising replaces the backslashes and cuts exactly the leading `./`s. */
  lemma NormalizedCutsDotSlashes(path: string) returns (n: nat)
    ensures DotSlashes(n) + Normalized(path) == ForwardSlashes(path)
    ensures !("./" <= Normalized(path))
  {
    n := DropCutsDotSlashes(ForwardSlashes(path));
  }

  lemma {:induction false} DropCutsDotSlashes(path: string) returns (n: nat)
    ensures DotSlashes(n) + DropDotSlash(path) == path && !("./" <= DropDotSlash(path))
  {
    if StartsWith(path, "./") {
      n := DropCutsDotSlashes(path[2..]);
      OneMoreDotSlash(n, DropDotSlash(path), path);
      n := n + 1;
    } else {
      n := 0;
      assert "" + path == path;
    }
  }

  lemma OneMoreDotSlash(n: nat, rest: string, path: string)
    requires StartsWith(path, "./") && DotSlashes(n) + rest == path[2..]
    ensures DotSlashes(n + 1) + rest == path
  {
    var dots := DotSlashes(n);
    assert path == "./" + path[2..];
    assert DotSlashes(n + 1) == "./" + dots;
    hide DotSlashes;
    assert "./" + (dots + rest) == "./" + dots + rest;
  }

  lemma {:induction false} DropDotSlashSuffix(path: string)
    requires '\\' !in path
    ensures '\\' !in DropDotSlash(path) && !StartsWith(DropDotSlash(path), "./")
  {
    if StartsWith(path, "./") {
      DropDotSlashSuffix(path[2..]);
    }
  }

  predicate Contains(s: string, token: string)
  {
    exists i :: 0 <= i <= |s| && TokenAt(s, token, i)
  }

  predicate TokenAt(s: string, token: string, i: nat)
    requires i <= |s|
  {
    StartsWith(s[i..], token)
  }

  /** `\[[^][]+\]` finds something. */
  predicate HasCharacterClass(s: string)
  {
    exists i, j :: 0 <= i < j < |s| && s[i] == '[' && s[j] == ']' && i + 1 < j &&
      forall k :: i < k < j ==> s[k] != '[' && s[k] != ']'
  }

  /** `\{[^{}]*,[^{}]*\}` finds something. */
  predicate HasBraceExpansion(s: string)
  {
    exists i, j :: 0 <= i < j < |s| && s[i] == '{' && s[j] == '}' && ',' in s[i + 1..j] &&
      forall k :: i < k < j ==> s[k] != '{' && s[k] != '}'
  }

  function UnsupportedGlobConstructs(p: string): (found: seq<string>)
  {
    (if Contains(p, "@(") then ["@("] else []) +
    (if Contains(p, "+(") then ["+("] else []) +
    (if Contains(p, "*(") then ["*("] else []) +
    (if Contains(p, "?(") then ["?("] else []) +
    (if Contains(p, "!(") then ["!("] else []) +
    (if StartsWith(p, "!") && !Contains(p, "!(") then ["leading !"] else []) +
    (if HasCharacterClass(p) then ["[]"] else []) +
    (if HasBraceExpansion(p) then ["{,}"] else [])
  }

  /** The patterns the matcher takes, said of the segment list. */
  predicate Supported(p: string)
  {
    && UnsupportedGlobConstructs(p) == []
    && forall segment :: segment in Split(p, '/') ==> SupportedSegment(segment)
  }

  predicate SupportedSegment(segment: string)
  {
    segment != "" && (Contains(segment, "**") ==> segment == "**")
  }

  /** The error for constructs outside the language, which it lists. */
  function TokensError(p: string): string
  {
    "unsupported glob tokens found; " + ("semantic matcher only supports " + "literals, *, ?, and ** path segments ("
    + Join(UnsupportedGlobConstructs(p), " ") + ")")
  }

  /** The error for `**` inside a longer segment. */
  function StarsError(p: string): string
  {
    "semantic matcher only supports " + ("** as a full path segment (pattern: " + p + ")")
  }

  lemma ErrorsDiffer(p: string)
    ensures StarsError(p) != TokensError(p)
    ensures StarsError(p) != "empty patterns are not supported"
    ensures StarsError(p) != "empty path segments are not supported"
  {
    hide UnsupportedGlobConstructs;
    hide Join;
    assert "semantic matcher only supports "[0] == 's' && "unsupported glob tokens found; "[0] == 'u';
    assert StarsError(p)[0] == 's';
    assert TokensError(p)[0] == 'u';
  }

  lemma ShorterHoldsNot(p: string, token: string)
    requires |p| < |token|
    ensures !Holds(p, token)
  {
  }

  method ValidateSupportedGlobPattern(pattern: string) returns (r: Result<string, string>)
    ensures r.Ok? <==> Supported(Normalized(pattern))
    ensures r.Err? <==> Refused(Normalized(pattern))
    ensures r.Ok? ==> r.value == Normalized(pattern)
    ensures Normalized(pattern) == "" ==> r == Err("empty patterns are not supported")
    ensures Holds(Normalized(pattern), "//") ==> r == Err("empty path segments are not supported")
    ensures var p := Normalized(pattern);
      p != "" && !Holds(p, "//") && UnsupportedGlobConstructs(p) != [] ==> r == Err(TokensError(p))
    ensures r == Err(StarsError(Normalized(pattern))) ==> HasStarsWithin(Normalized(pattern))
  {
    SupportedExactly(Normalized(pattern));
    ContainsExactly(Normalized(pattern), "//");
    ErrorsDiffer(Normalized(pattern));
    hide Holds;
    hide HasStarsWithin;
    hide TokensError;
    hide StarsError;
    hide Refused;
    hide Contains;
    hide UnsupportedGlobConstructs;
    hide Normalized;
    var normalized := NormalizeRepoPath(pattern);
    if normalized == "" {
      ShorterHoldsNot(normalized, "//");
      SplitNone("", '/');
      assert "" in Split(normalized, '/');
      return Err("empty patterns are not supported");
    }
    if Contains(normalized, "//") {
      DoubleSlashHasEmptySegment(normalized);
      return Err("empty path segments are not supported");
    }
    if UnsupportedGlobConstructs(normalized) != [] {
      return Err(TokensError(normalized));
    }
    var segments := Split(normalized, '/');
    for i := 0 to |segments|
      invariant forall j :: 0 <= j < i ==> SupportedSegment(segments[j])
    {
      assert segments[i] in segments;
      if segments[i] != "" {
        if Contains(segments[i], "**") && segments[i] != "**" {
          StarsFound(normalized, segments[i]);
          return Err(StarsError(normalized));
        }
      } else {
        return Err("empty path segments are not supported");
      }
    }
    r := Ok(normalized);
  }

  lemma {:induction false} DoubleSlashHasEmptySegment(s: string)
    requires Contains(s, "//")
    ensures "" in Split(s, '/')
    decreases |s|
  {
    var i :| 0 <= i <= |s| && TokenAt(s, "//", i);
    assert s[i] == s[i..][0] && s[i + 1] == s[i..][1];
    var k := IndexOf(s, '/');
    var rest := s[k + 1..];
    if k < i {
      assert rest[i - k - 1..] == s[i..];
      assert TokenAt(rest, "//", i - k - 1);
      DoubleSlashHasEmptySegment(rest);
    } else {
      assert rest[0] == '/' && IndexOf(rest, '/') == 0;
      assert Split(rest, '/')[0] == rest[..0] == "";
      assert Split(s, '/')[1] == "";
    }
  }

  // ------------------------------------------------- what is refused, in full

  /** `p` is `x`, then `segment`, then `z`, and `segment` is all there is between two slashes or ends. */
  predicate SegmentOf(p: string, x: string, segment: string, z: string)
  {
    && p == x + segment + z && '/' !in segment
    && (x == "" || x[|x| - 1] == '/') && (z == "" || z[0] == '/')
  }

  ghost predicate HasEmptySegment(p: string)
  {
    exists x, z :: SegmentOf(p, x, "", z)
  }

  predicate StarsWithin(p: string, x: string, a: string, b: string, z: string)
  {
    SegmentOf(p, x, a + "**" + b, z) && a + b != ""
  }

  /** `**` is part of a longer segment. */
  ghost predicate HasStarsWithin(p: string)
  {
    exists x, a, b, z :: StarsWithin(p, x, a, b, z)
  }

  predicate Around(p: string, x: string, token: string, z: string)
  {
    p == x + token + z
  }

  ghost predicate Holds(p: string, token: string)
  {
    exists x, z :: Around(p, x, token, z)
  }

  predicate ClassWithin(p: string, x: string, y: string, z: string)
  {
    p == x + "[" + y + "]" + z && y != "" && '[' !in y && ']' !in y
  }

  ghost predicate HoldsClass(p: string)
  {
    exists x, y, z :: ClassWithin(p, x, y, z)
  }

  predicate BracesWithin(p: string, x: string, y: string, z: string, u: string)
  {
    && p == x + "{" + y + "," + z + "}" + u
    && '{' !in y && '}' !in y && '{' !in z && '}' !in z
  }

  ghost predicate HoldsBraces(p: string)
  {
    exists x, y, z, u :: BracesWithin(p, x, y, z, u)
  }

  /** What the matcher refuses. */
  ghost predicate Refused(p: string)
  {
    || HasEmptySegment(p) || HasStarsWithin(p)
    || (p != "" && p[0] == '!')
    || Holds(p, "@(") || Holds(p, "+(") || Holds(p, "*(") || Holds(p, "?(") || Holds(p, "!(")
    || HoldsClass(p) || HoldsBraces(p)
  }

  lemma ContainsExactly(p: string, token: string)
    ensures Contains(p, token) <==> Holds(p, token)
  {
    if Contains(p, token) {
      var i :| 0 <= i <= |p| && TokenAt(p, token, i);
      assert p == p[..i] + token + p[i + |token|..];
      assert Around(p, p[..i], token, p[i + |token|..]);
    }
    if Holds(p, token) {
      var x, z :| Around(p, x, token, z);
      assert p[|x|..] == token + z;
      assert TokenAt(p, token, |x|);
    }
  }

  lemma ClassExactly(p: string)
    ensures HasCharacterClass(p) <==> HoldsClass(p)
  {
    if HasCharacterClass(p) {
      var i, j :| 0 <= i < j < |p| && p[i] == '[' && p[j] == ']' && i + 1 < j &&
        forall k :: i < k < j ==> p[k] != '[' && p[k] != ']';
      ClassFound(p, i, j);
    }
    if HoldsClass(p) {
      var x, y, z :| ClassWithin(p, x, y, z);
      ClassPlaced(p, x, y, z);
    }
  }

  lemma ClassFound(p: string, i: nat, j: nat)
    requires i + 1 < j < |p| && p[i] == '[' && p[j] == ']'
    requires forall k :: i < k < j ==> p[k] != '[' && p[k] != ']'
    ensures HoldsClass(p)
  {
    var x, y, z := p[..i], p[i + 1..j], p[j + 1..];
    assert p == x + "[" + y + "]" + z;
    assert ClassWithin(p, x, y, z);
  }

  lemma ClassPlaced(p: string, x: string, y: string, z: string)
    requires ClassWithin(p, x, y, z)
    ensures HasCharacterClass(p)
  {
    var i, j := |x|, |x| + 1 + |y|;
    assert p[i] == '[' && p[j] == ']';
    forall k | i < k < j ensures p[k] != '[' && p[k] != ']' {
      assert p[k] == y[k - i - 1];
    }
  }

  lemma BracesExactly(p: string)
    ensures HasBraceExpansion(p) <==> HoldsBraces(p)
  {
    if HasBraceExpansion(p) {
      var i, j :| 0 <= i < j < |p| && p[i] == '{' && p[j] == '}' && ',' in p[i + 1..j] &&
        forall k :: i < k < j ==> p[k] != '{' && p[k] != '}';
      BracesFound(p, i, j);
    }
    if HoldsBraces(p) {
      var x, y, z, u :| BracesWithin(p, x, y, z, u);
      BracesPlaced(p, x, y, z, u);
    }
  }

  lemma BracesFound(p: string, i: nat, j: nat)
    requires i < j < |p| && p[i] == '{' && p[j] == '}' && ',' in p[i + 1..j]
    requires forall k :: i < k < j ==> p[k] != '{' && p[k] != '}'
    ensures HoldsBraces(p)
  {
    var c :| i < c < j && p[c] == ',';
    var x, y, z, u := p[..i], p[i + 1..c], p[c + 1..j], p[j + 1..];
    assert p == x + "{" + y + "," + z + "}" + u;
    assert BracesWithin(p, x, y, z, u);
  }

  lemma BracesPlaced(p: string, x: string, y: string, z: string, u: string)
    requires BracesWithin(p, x, y, z, u)
    ensures HasBraceExpansion(p)
  {
    var inner := y + "," + z;
    var i, j := |x|, |x| + 1 + |inner|;
    assert p == x + "{" + inner + "}" + u;
    assert p[i] == '{' && p[j] == '}';
    forall k | i < k < j ensures p[k] != '{' && p[k] != '}' && p[k] == inner[k - i - 1] {
      assert inner[k - i - 1] in y || inner[k - i - 1] == ',' || inner[k - i - 1] in z;
    }
    assert p[i + 1..j] == inner && inner[|y|] == ',';
  }

  /** A text is a segment between slashes exactly when splitting finds it. */
  lemma {:induction false} SegmentOfSplit(p: string, segment: string)
    ensures segment in Split(p, '/') <==> exists x, z :: SegmentOf(p, x, segment, z)
    decreases |p|
  {
    var i := IndexOf(p, '/');
    if i == |p| {
      WholeSegment(p, segment);
    } else {
      SlashSplit(p, i);
      var rest := p[i + 1..];
      SegmentOfSplit(rest, segment);
      assert Split(p, '/') == [p[..i]] + Split(rest, '/');
      FirstOrLater(p[..i], rest, segment);
    }
  }

  lemma WholeSegment(p: string, segment: string)
    requires '/' !in p
    ensures segment in Split(p, '/') <==> exists x, z :: SegmentOf(p, x, segment, z)
  {
    SplitNone(p, '/');
    if segment == p {
      assert p == "" + segment + "";
      assert SegmentOf(p, "", segment, "");
    }
    if x, z :| SegmentOf(p, x, segment, z) {
      OnlySegment(p, x, segment, z);
    }
  }

  lemma OnlySegment(p: string, x: string, segment: string, z: string)
    requires SegmentOf(p, x, segment, z)
    ensures segment == p || '/' in p
  {
    if x != "" {
      assert p[|x| - 1] == '/';
    } else if z != "" {
      assert p[|segment|] == '/';
    } else {
      assert p == segment;
    }
  }

  /** The segments of `head/rest` are `head` and those of `rest`. */
  lemma FirstOrLater(head: string, rest: string, segment: string)
    requires '/' !in head
    ensures (exists x, z :: SegmentOf(head + "/" + rest, x, segment, z)) <==>
            segment == head || exists x, z :: SegmentOf(rest, x, segment, z)
  {
    var p := head + "/" + rest;
    if segment == head {
      assert p == "" + segment + ("/" + rest);
      assert SegmentOf(p, "", segment, "/" + rest);
    }
    if x, z :| SegmentOf(rest, x, segment, z) {
      assert p == (head + "/" + x) + segment + z;
      assert SegmentOf(p, head + "/" + x, segment, z);
    }
    if x, z :| SegmentOf(p, x, segment, z) {
      if segment != head {
        LaterSegment(head, rest, x, segment, z);
      }
    }
  }

  lemma LaterSegment(head: string, rest: string, x: string, segment: string, z: string)
    requires '/' !in head && SegmentOf(head + "/" + rest, x, segment, z) && segment != head
    ensures exists x', z' :: SegmentOf(rest, x', segment, z')
  {
    var p, n := head + "/" + rest, |head|;
    assert p[n] == '/' && forall k :: 0 <= k < n ==> p[k] == head[k] && head[k] in head;
    if x == "" {
      FirstSegment(head, rest, segment, z);
    } else {
      assert p[|x| - 1] == x[|x| - 1] == '/';
      assert |x| - 1 >= n;
      var x' := x[n + 1..];
      assert rest == p[n + 1..] == x' + segment + z;
      assert SegmentOf(rest, x', segment, z);
    }
  }

  lemma FirstSegment(head: string, rest: string, segment: string, z: string)
    requires '/' !in head && SegmentOf(head + "/" + rest, "", segment, z)
    ensures segment == head
  {
    var p := head + "/" + rest;
    assert p == segment + z;
    IndexOfUnique(p, '/', |head|) by {
      assert p[..|head|] == head;
    }
    IndexOfUnique(p, '/', |segment|) by {
      assert p[..|segment|] == segment;
    }
  }

  lemma SegmentsExactly(p: string)
    ensures (forall segment :: segment in Split(p, '/') ==> SupportedSegment(segment)) <==>
            !HasEmptySegment(p) && !HasStarsWithin(p)
  {
    hide Split;
    hide Contains;
    hide SegmentOf;
    SegmentOfSplit(p, "");
    assert !SupportedSegment("");
    if HasStarsWithin(p) {
      StarsUnsupported(p);
    }
    if segment :| segment in Split(p, '/') && !SupportedSegment(segment) {
      if segment != "" {
        StarsFound(p, segment);
      }
    }
  }

  lemma StarsUnsupported(p: string)
    requires HasStarsWithin(p)
    ensures exists segment :: segment in Split(p, '/') && !SupportedSegment(segment)
  {
    hide Split;
    var x, a, b, z :| StarsWithin(p, x, a, b, z);
    var segment := a + "**" + b;
    assert Around(segment, a, "**", b);
    ContainsExactly(segment, "**");
    SegmentOfSplit(p, segment);
    assert segment in Split(p, '/');
    assert |segment| == 2 + |a + b|;
  }

  lemma StarsFound(p: string, segment: string)
    requires segment in Split(p, '/') && segment != "" && !SupportedSegment(segment)
    ensures HasStarsWithin(p)
  {
    hide Split;
    ContainsExactly(segment, "**");
    var a, b :| Around(segment, a, "**", b);
    SegmentOfSplit(p, segment);
    var x, z :| SegmentOf(p, x, segment, z);
    assert |segment| == |a + b| + 2;
    assert StarsWithin(p, x, a, b, z);
  }

  function If(condition: bool, name: string): seq<string>
  {
    if condition then [name] else []
  }

  /** Which constructs are reported, in order: each of the eight exactly when the text has it. */
  lemma FoundExactly(p: string)
    ensures UnsupportedGlobConstructs(p) ==
      If(Holds(p, "@("), "@(") + If(Holds(p, "+("), "+(") + If(Holds(p, "*("), "*(") + If(Holds(p, "?("), "?(") +
      If(Holds(p, "!("), "!(") + If(p != "" && p[0] == '!' && !Holds(p, "!("), "leading !") +
      If(HoldsClass(p), "[]") + If(HoldsBraces(p), "{,}")
  {
    hide Contains;
    hide Holds;
    hide HasCharacterClass;
    hide HoldsClass;
    hide HasBraceExpansion;
    hide HoldsBraces;
    ContainsExactly(p, "@(");
    ContainsExactly(p, "+(");
    ContainsExactly(p, "*(");
    ContainsExactly(p, "?(");
    ContainsExactly(p, "!(");
    ClassExactly(p);
    BracesExactly(p);
  }

  /** A pattern is supported exactly when it holds nothing that is refused. */
  lemma SupportedExactly(p: string)
    ensures Supported(p) <==> !Refused(p)
  {
    ContainsExactly(p, "@(");
    ContainsExactly(p, "+(");
    ContainsExactly(p, "*(");
    ContainsExactly(p, "?(");
    ContainsExactly(p, "!(");
    ClassExactly(p);
    BracesExactly(p);
    SegmentsExactly(p);
    hide Contains;
    hide Holds;
    hide HasCharacterClass;
    hide HoldsClass;
    hide HasBraceExpansion;
    hide HoldsBraces;
    hide SupportedSegment;
    hide Split;
    hide HasEmptySegment;
    hide HasStarsWithin;
  }

  // --------------------------------------------------- the reference matcher

  /** One path segment against one pattern segment. */
  predicate WildMatch(pattern: string, text: string)
    decreases |pattern| + |text|
  {
    if pattern == "" then text == ""
    else if pattern[0] == '*' then
      WildMatch(pattern[1..], text) || (text != "" && WildMatch(pattern, text[1..]))
    else
      text != "" && (pattern[0] == '?' || pattern[0] == text[0]) && WildMatch(pattern[1..], text[1..])
  }

  /** Segment list against segment list: a middle `**` stands for zero or more
      non-empty segments, a final `**` for whatever text remains on the line,
      and every other segment for exactly one path segment. */
  predicate SegmentsMatch(patterns: seq<string>, path: seq<string>)
    requires |patterns| > 0 && |path| > 0
    decreases |patterns| + |path|
  {
    if |patterns| == 1 then
      if patterns[0] == "**" then forall p :: p in path ==> '\n' !in p
      else |path| == 1 && WildMatch(patterns[0], path[0])
    else if patterns[0] == "**" then
      SegmentsMatch(patterns[1..], path) ||
      (|path| > 1 && path[0] != "" && SegmentsMatch(patterns, path[1..]))
    else
      |path| > 1 && WildMatch(patterns[0], path[0]) && SegmentsMatch(patterns[1..], path[1..])
  }

  // ------------------------------------------------------------------ proofs

  // Introducing and splitting a match, one connective at a time.

  lemma ConsIntro(r: Regex, rest: seq<Regex>, a: string, b: string)
    requires Matches(r, a) && MatchesAll(rest, b)
    ensures MatchesAll([r] + rest, a + b)
  {
    assert (a + b)[..|a|] == a && (a + b)[|a|..] == b && ([r] + rest)[1..] == rest;
    assert MatchesAllAt([r] + rest, a + b, |a|);
  }

  lemma ConsElim(r: Regex, rest: seq<Regex>, s: string) returns (a: string, b: string)
    requires MatchesAll([r] + rest, s)
    ensures s == a + b && Matches(r, a) && MatchesAll(rest, b)
  {
    assert ([r] + rest)[1..] == rest;
    var k: nat :| MatchesAllAt([r] + rest, s, k);
    a, b := s[..k], s[k..];
  }

  lemma StarIntro(body: Regex, a: string, b: string)
    requires Matches(body, a) && Matches(Star(body), b)
    ensures Matches(Star(body), a + b)
  {
    if a == "" {
      assert a + b == b;
    } else {
      assert (a + b)[..|a|] == a && (a + b)[|a|..] == b;
      assert MatchesRepeatAt(Star(body), a + b, |a|);
    }
  }

  lemma StarElim(body: Regex, s: string) returns (a: string, b: string)
    requires Matches(Star(body), s) && s != ""
    ensures s == a + b && a != "" && Matches(body, a) && Matches(Star(body), b)
  {
    var k: nat :| MatchesRepeatAt(Star(body), s, k);
    a, b := s[..k], s[k..];
  }

  lemma {:induction false} ConcatIntro(xs: seq<Regex>, ys: seq<Regex>, a: string, b: string)
    requires MatchesAll(xs, a) && MatchesAll(ys, b)
    ensures MatchesAll(xs + ys, a + b)
  {
    if xs == [] {
      assert xs + ys == ys && a + b == b;
    } else {
      assert xs == [xs[0]] + xs[1..];
      var h, t := ConsElim(xs[0], xs[1..], a);
      ConcatIntro(xs[1..], ys, t, b);
      ConsIntro(xs[0], xs[1..] + ys, h, t + b);
      assert xs + ys == [xs[0]] + (xs[1..] + ys) && a + b == h + (t + b);
    }
  }

  lemma {:induction false} ConcatElim(xs: seq<Regex>, ys: seq<Regex>, s: string) returns (a: string, b: string)
    requires MatchesAll(xs + ys, s)
    ensures s == a + b && MatchesAll(xs, a) && MatchesAll(ys, b)
    decreases |xs|
  {
    if xs == [] {
      assert xs + ys == ys;
      a, b := "", s;
    } else {
      hide MatchesAll;
      assert xs == [xs[0]] + xs[1..];
      assert xs + ys == [xs[0]] + (xs[1..] + ys);
      a, b := ConsConcatElim(xs[0], xs[1..], ys, s);
    }
  }

  lemma {:induction false} ConsConcatElim(x: Regex, xs: seq<Regex>, ys: seq<Regex>, s: string) returns (a: string, b: string)
    requires MatchesAll([x] + (xs + ys), s)
    ensures s == a + b && MatchesAll([x] + xs, a) && MatchesAll(ys, b)
    decreases |xs| + 1, 0
  {
    hide MatchesAll;
    hide Matches;
    var h, t := ConsElim(x, xs + ys, s);
    var a';
    a', b := ConcatElim(xs, ys, t);
    ConsIntro(x, xs, h, a');
    a := h + a';
  }

  lemma MatchesAllSingle(r: Regex, s: string)
    ensures MatchesAll([r], s) <==> Matches(r, s)
  {
    assert [r] + [] == [r];
    if MatchesAll([r], s) {
      var a, b := ConsElim(r, [], s);
      assert s == a;
    }
    if Matches(r, s) {
      ConsIntro(r, [], s, "");
      assert s + "" == s;
    }
  }

  lemma {:induction false} StarDot(s: string)
    ensures Matches(Star(Dot), s) <==> '\n' !in s
    decreases |s|
  {
    if s != "" {
      assert s == [s[0]] + s[1..];
      StarDot(s[1..]);
      if '\n' !in s {
        StarIntro(Dot, [s[0]], s[1..]);
      }
      if Matches(Star(Dot), s) {
        var a, b := StarElim(Dot, s);
        assert a == [s[0]] && b == s[1..];
      }
    }
  }

  lemma {:induction false} PlusNotSlash(s: string)
    ensures Matches(Plus(NotSlash), s) <==> s != "" && '/' !in s
    decreases |s|
  {
    if s != "" {
      assert s == [s[0]] + s[1..] && s[..1] == [s[0]];
      PlusNotSlash(s[1..]);
      if '/' !in s && |s| > 1 {
        assert MatchesRepeatAt(Plus(NotSlash), s, 1);
      }
      if k: nat :| MatchesRepeatAt(Plus(NotSlash), s, k) {
        assert Matches(NotSlash, s[..k]) && Matches(Plus(NotSlash), s[k..]);
        assert k == 1;
      }
    }
  }

  /** A compiled segment accepts exactly the slash-free texts `WildMatch` accepts. */
  lemma {:induction false} SegmentPartsMatch(segment: string, s: string)
    requires '/' !in segment
    ensures MatchesAll(SegmentParts(segment), s) <==> '/' !in s && WildMatch(segment, s)
    decreases |segment| + |s|
  {
    if segment != "" {
      var rest := SegmentParts(segment[1..]);
      if segment[0] == '*' {
        StarPartMatch(segment, s);
      } else {
        if s != "" {
          assert s == [s[0]] + s[1..];
          SegmentPartsMatch(segment[1..], s[1..]);
          if '/' !in s && WildMatch(segment, s) {
            ConsIntro(CharPart(segment[0]), rest, [s[0]], s[1..]);
          }
        }
        if MatchesAll(SegmentParts(segment), s) {
          var a, b := ConsElim(CharPart(segment[0]), rest, s);
          assert a == [s[0]] && b == s[1..];
        }
      }
    }
  }

  lemma {:induction false} StarPartMatch(segment: string, s: string)
    requires '/' !in segment && segment != "" && segment[0] == '*'
    ensures MatchesAll(SegmentParts(segment), s) <==> '/' !in s && WildMatch(segment, s)
    decreases |segment| + |s|, 0
  {
    var rest := SegmentParts(segment[1..]);
    SegmentPartsMatch(segment[1..], s);
    if s != "" {
      SegmentPartsMatch(segment, s[1..]);
      assert s == [s[0]] + s[1..];
    }
    StarNotSlashCons(rest, s);
  }

  /** `[^/]*` followed by `rest`: it takes nothing, or one more character. */
  lemma StarNotSlashCons(rest: seq<Regex>, s: string)
    ensures MatchesAll([Star(NotSlash)] + rest, s) <==>
            MatchesAll(rest, s) || (s != "" && s[0] != '/' && MatchesAll([Star(NotSlash)] + rest, s[1..]))
  {
    StarConsSkip(NotSlash, rest, s);
    if s != "" && s[0] != '/' && MatchesAll([Star(NotSlash)] + rest, s[1..]) {
      StarConsIntro(NotSlash, rest, [s[0]], s[1..]);
      assert s == [s[0]] + s[1..];
    }
    if MatchesAll([Star(NotSlash)] + rest, s) && !MatchesAll(rest, s) {
      var x, y := StarConsElim(NotSlash, rest, s);
      assert y == s[1..];
    }
  }

  /** Zero repetitions of a starred part. */
  lemma StarConsSkip(body: Regex, tail: seq<Regex>, s: string)
    ensures MatchesAll(tail, s) ==> MatchesAll([Star(body)] + tail, s)
  {
    if MatchesAll(tail, s) {
      ConsIntro(Star(body), tail, "", s);
      assert "" + s == s;
    }
  }

  /** One more repetition in front of a starred part. */
  lemma StarConsIntro(body: Regex, tail: seq<Regex>, x: string, y: string)
    requires Matches(body, x) && MatchesAll([Star(body)] + tail, y)
    ensures MatchesAll([Star(body)] + tail, x + y)
  {
    var a, b := ConsElim(Star(body), tail, y);
    StarIntro(body, x, a);
    ConsIntro(Star(body), tail, x + a, b);
    assert x + y == x + a + b;
  }

  lemma StarConsElim(body: Regex, tail: seq<Regex>, s: string) returns (x: string, y: string)
    requires MatchesAll([Star(body)] + tail, s) && !MatchesAll(tail, s)
    ensures s == x + y && x != "" && Matches(body, x) && MatchesAll([Star(body)] + tail, y)
  {
    var a, b := ConsElim(Star(body), tail, s);
    assert a == "" ==> b == s;
    x, y := StarElim(body, a);
    ConsIntro(Star(body), tail, y, b);
    assert s == x + (y + b);
    y := y + b;
  }

  /** `[^/]+/` accepts one non-empty segment and its slash. */
  lemma DirectoryMatch(a: string)
    ensures Matches(Cat(Plus(NotSlash), Lit('/')), a) <==>
            |a| > 1 && a[|a| - 1] == '/' && '/' !in a[..|a| - 1]
  {
    var dir := Cat(Plus(NotSlash), Lit('/'));
    if a != "" {
      PlusNotSlash(a[..|a| - 1]);
      assert a[|a| - 1..] == [a[|a| - 1]];
      if Matches(Plus(NotSlash), a[..|a| - 1]) && a[|a| - 1] == '/' {
        assert MatchesCatAt(dir, a, |a| - 1);
      }
    }
    if k: nat :| MatchesCatAt(dir, a, k) {
      assert Matches(Plus(NotSlash), a[..k]) && Matches(Lit('/'), a[k..]);
      assert k == |a| - 1 && a[k..][0] == a[k];
    }
  }

  /** `(?:[^/]+/)*` followed by `tail`: either nothing is skipped, or the first
      segment is non-empty and skipped. */
  lemma DirectoriesMatch(tail: seq<Regex>, s: string)
    ensures var i := IndexOf(s, '/');
            MatchesAll([DIRECTORIES] + tail, s) <==>
            MatchesAll(tail, s) || (0 < i < |s| && MatchesAll([DIRECTORIES] + tail, s[i + 1..]))
  {
    hide MatchesAll;
    StarConsSkip(DIRECTORIES.body, tail, s);
    hide DIRECTORIES;
    var i := IndexOf(s, '/');
    if 0 < i < |s| && MatchesAll([DIRECTORIES] + tail, s[i + 1..]) {
      SlashSplit(s, i);
      DirectoryAhead(tail, s[..i], s[i + 1..]);
    }
    if MatchesAll([DIRECTORIES] + tail, s) && !MatchesAll(tail, s) {
      DirectoriesElim(tail, s);
    }
  }

  lemma SlashSplit(s: string, i: nat)
    requires i == IndexOf(s, '/') < |s|
    ensures '/' !in s[..i] && s == s[..i] + "/" + s[i + 1..]
  {
    hide IndexOf;
    assert s[i..i + 1] == "/";
  }

  lemma DirectoryAhead(tail: seq<Regex>, name: string, rest: string)
    requires name != "" && '/' !in name && MatchesAll([DIRECTORIES] + tail, rest)
    ensures MatchesAll([DIRECTORIES] + tail, name + "/" + rest)
  {
    hide MatchesAll;
    hide Matches;
    var a := name + "/";
    assert a[..|a| - 1] == name;
    DirectoryMatch(a);
    StarConsIntro(DIRECTORIES.body, tail, a, rest);
  }

  lemma DirectoriesElim(tail: seq<Regex>, s: string)
    requires MatchesAll([DIRECTORIES] + tail, s) && !MatchesAll(tail, s)
    ensures var i := IndexOf(s, '/');
            0 < i < |s| && MatchesAll([DIRECTORIES] + tail, s[i + 1..])
  {
    var x, y := StarConsElim(DIRECTORIES.body, tail, s);
    DirectoryMatch(x);
    assert s[..|x| - 1] == x[..|x| - 1] && s[|x|..] == y;
    IndexOfUnique(s, '/', |x| - 1);
  }

  /** A literal segment in front: it takes the path's first segment and its slash. */
  lemma HeadSegmentMatch(segment: string, tail: seq<Regex>, s: string)
    requires '/' !in segment
    ensures var i := IndexOf(s, '/');
            MatchesAll(SegmentParts(segment) + ([Lit('/')] + tail), s) <==>
            i < |s| && WildMatch(segment, s[..i]) && MatchesAll(tail, s[i + 1..])
  {
    hide MatchesAll;
    hide WildMatch;
    hide SegmentParts;
    hide IndexOf;
    if MatchesAll(SegmentParts(segment) + ([Lit('/')] + tail), s) {
      HeadSegmentElim(segment, tail, s);
    } else {
      var i := IndexOf(s, '/');
      if i < |s| && WildMatch(segment, s[..i]) && MatchesAll(tail, s[i + 1..]) {
        HeadSegmentAt(segment, tail, s, i);
        assert false;
      }
    }
  }

  lemma HeadSegmentAt(segment: string, tail: seq<Regex>, s: string, i: nat)
    requires '/' !in segment && i == IndexOf(s, '/') < |s|
    requires WildMatch(segment, s[..i]) && MatchesAll(tail, s[i + 1..])
    ensures MatchesAll(SegmentParts(segment) + ([Lit('/')] + tail), s)
  {
    hide MatchesAll;
    hide WildMatch;
    hide SegmentParts;
    assert s == s[..i] + ("/" + s[i + 1..]);
    HeadSegmentIntro(segment, tail, s[..i], s[i + 1..]);
  }

  lemma HeadSegmentIntro(segment: string, tail: seq<Regex>, a: string, b: string)
    requires '/' !in segment && '/' !in a
    requires WildMatch(segment, a) && MatchesAll(tail, b)
    ensures MatchesAll(SegmentParts(segment) + ([Lit('/')] + tail), a + ("/" + b))
  {
    SegmentPartsMatch(segment, a);
    ConsIntro(Lit('/'), tail, "/", b);
    ConcatIntro(SegmentParts(segment), [Lit('/')] + tail, a, "/" + b);
  }

  lemma HeadSegmentElim(segment: string, tail: seq<Regex>, s: string)
    requires '/' !in segment
    requires MatchesAll(SegmentParts(segment) + ([Lit('/')] + tail), s)
    ensures var i := IndexOf(s, '/');
            i < |s| && WildMatch(segment, s[..i]) && MatchesAll(tail, s[i + 1..])
  {
    var a, t := ConcatElim(SegmentParts(segment), [Lit('/')] + tail, s);
    var slash, b := ConsElim(Lit('/'), tail, t);
    SegmentPartsMatch(segment, a);
    assert s[..|a|] == a && s[|a|] == slash[0] && s[|a| + 1..] == b;
    IndexOfUnique(s, '/', |a|);
  }

  lemma {:induction false} NewlineInSplit(s: string)
    ensures '\n' in s <==> exists p :: p in Split(s, '/') && '\n' in p
    decreases |s|
  {
    var i := IndexOf(s, '/');
    if i < |s| {
      NewlineInSplit(s[i + 1..]);
      assert s == s[..i] + [s[i]] + s[i + 1..];
      var parts := Split(s, '/');
      assert parts[0] == s[..i] && parts[1..] == Split(s[i + 1..], '/');
      if '\n' in s && '\n' !in s[..i] {
        var p :| p in Split(s[i + 1..], '/') && '\n' in p;
        assert p in parts;
      }
      if p :| p in parts && '\n' in p {
        assert p == s[..i] || p in parts[1..];
      }
    } else {
      assert Split(s, '/') == [s];
    }
  }

  /** The compiled pattern's language is the reference matcher's, on every text. */
  lemma {:induction false} CompiledMatchesSegments(patterns: seq<string>, s: string)
    requires |patterns| > 0
    requires forall p :: p in patterns ==> '/' !in p
    ensures MatchesAll(PatternParts(patterns), s) <==> SegmentsMatch(patterns, Split(s, '/'))
    decreases |patterns| + |s|
  {
    var i := IndexOf(s, '/');
    var path := Split(s, '/');
    var tail := PatternParts(patterns[1..]);
    assert path[0] == s[..i];
    assert i < |s| ==> path[1..] == Split(s[i + 1..], '/');
    if |patterns| == 1 {
      assert patterns[1..] == [];
      if patterns[0] == "**" {
        assert PatternParts(patterns) == [Star(Dot)];
        MatchesAllSingle(Star(Dot), s);
        StarDot(s);
        NewlineInSplit(s);
      } else {
        assert PatternParts(patterns) == SegmentParts(patterns[0]);
        SegmentPartsMatch(patterns[0], s);
        assert i == |s| ==> s[..i] == s;
        assert i < |s| ==> s[i] in s;
      }
    } else {
      CompiledMatchesSegmentsCons(patterns, s, i, tail);
    }
  }

  lemma {:induction false} CompiledMatchesSegmentsCons(patterns: seq<string>, s: string, i: nat, tail: seq<Regex>)
    requires |patterns| > 1 && i == IndexOf(s, '/') && tail == PatternParts(patterns[1..])
    requires forall p :: p in patterns ==> '/' !in p
    ensures MatchesAll(PatternParts(patterns), s) <==> SegmentsMatch(patterns, Split(s, '/'))
    decreases |patterns| + |s|, 0
  {
    hide MatchesAll;
    hide WildMatch;
    hide SegmentParts;
    hide SegmentsMatch;
    hide Split;
    PatternPartsHead(patterns, tail);
    hide PatternParts;
    if patterns[0] == "**" {
      StarsTakeSegments(patterns, s, i);
      DirectoriesMatch(tail, s);
      CompiledMatchesSegments(patterns[1..], s);
      if i < |s| {
        CompiledMatchesSegments(patterns, s[i + 1..]);
      }
    } else {
      HeadTakesSegment(patterns, s, i);
      HeadSegmentMatch(patterns[0], tail, s);
      if i < |s| {
        CompiledMatchesSegments(patterns[1..], s[i + 1..]);
      }
    }
  }

  lemma PatternPartsHead(patterns: seq<string>, tail: seq<Regex>)
    requires |patterns| > 1 && tail == PatternParts(patterns[1..])
    ensures PatternParts(patterns) ==
      if patterns[0] == "**" then [DIRECTORIES] + tail else SegmentParts(patterns[0]) + ([Lit('/')] + tail)
  {
    hide SegmentParts;
    hide PieceParts;
    hide DIRECTORIES;
    assert PatternParts(patterns) == PieceParts(patterns[0], false) + PatternParts(patterns[1..]);
    hide PatternParts;
    PieceHead(patterns[0], tail);
  }

  lemma PieceHead(segment: string, tail: seq<Regex>)
    ensures PieceParts(segment, false) + tail ==
      if segment == "**" then [DIRECTORIES] + tail else SegmentParts(segment) + ([Lit('/')] + tail)
  {
    hide SegmentParts;
    hide DIRECTORIES;
    var parts, slash := SegmentParts(segment), [Lit('/')];
    assert (parts + slash) + tail == parts + (slash + tail);
  }

  lemma SplitHead(s: string, i: nat)
    requires i == IndexOf(s, '/')
    ensures Split(s, '/')[0] == s[..i] && (|Split(s, '/')| > 1 <==> i < |s|)
    ensures i < |s| ==> Split(s, '/')[1..] == Split(s[i + 1..], '/')
  {
    hide IndexOf;
    if i < |s| {
      var rest := Split(s[i + 1..], '/');
      assert Split(s, '/') == [s[..i]] + rest;
      hide Split;
    } else {
      assert s[..i] == s;
    }
  }

  lemma StarsTakeSegments(patterns: seq<string>, s: string, i: nat)
    requires |patterns| > 1 && patterns[0] == "**" && i == IndexOf(s, '/')
    ensures SegmentsMatch(patterns, Split(s, '/')) <==>
      || SegmentsMatch(patterns[1..], Split(s, '/'))
      || (0 < i < |s| && SegmentsMatch(patterns, Split(s[i + 1..], '/')))
  {
    SplitHead(s, i);
    hide Split;
  }

  lemma HeadTakesSegment(patterns: seq<string>, s: string, i: nat)
    requires |patterns| > 1 && patterns[0] != "**" && i == IndexOf(s, '/')
    ensures SegmentsMatch(patterns, Split(s, '/')) <==>
      i < |s| && WildMatch(patterns[0], s[..i]) && SegmentsMatch(patterns[1..], Split(s[i + 1..], '/'))
  {
    SplitHead(s, i);
    hide Split;
    hide WildMatch;
  }

  /** `path_matches_pattern`: an unsupported pattern is an error, a supported one
      answers whether its regular expression accepts the normalised path. */
  ghost function PathMatchesPattern(path: string, pattern: string): (r: Result<bool, string>)
  {
    if !Supported(Normalized(pattern)) then Err("unsupported pattern")
    else Ok(Accepts(PatternParts(Split(Normalized(pattern), '/')), Normalized(path)))
  }

  /** Matching by compiled regular expression is matching by segments, for every
      supported pattern and every path; a path's one final newline may be ignored. */
  lemma PathMatchesExactlySegments(path: string, pattern: string)
    requires Supported(Normalized(pattern))
    ensures var patterns := Split(Normalized(pattern), '/');
            var p := Normalized(path);
            PathMatchesPattern(path, pattern) ==
            Ok(SegmentsMatch(patterns, Split(p, '/')) ||
               (p != "" && p[|p| - 1] == '\n' && SegmentsMatch(patterns, Split(p[..|p| - 1], '/'))))
  {
    var patterns := Split(Normalized(pattern), '/');
    var p := Normalized(path);
    CompiledMatchesSegments(patterns, p);
    if p != "" {
      CompiledMatchesSegments(patterns, p[..|p| - 1]);
    }
  }

  /** On paths that do not end in a newline the two matchers agree outright. */
  lemma PathMatchesSegments(path: string, pattern: string)
    requires Supported(Normalized(pattern)) && (path == "" || path[|path| - 1] != '\n')
    ensures PathMatchesPattern(path, pattern) ==
            Ok(SegmentsMatch(Split(Normalized(pattern), '/'), Split(Normalized(path), '/')))
  {
    PathMatchesExactlySegments(path, pattern);
    DropDotSlashKeepsEnd(ForwardSlashes(path));
  }

  lemma {:induction false} DropDotSlashKeepsEnd(path: string)
    ensures var p := DropDotSlash(path); p == "" || p[|p| - 1] == path[|path| - 1]
  {
    if StartsWith(path, "./") {
      DropDotSlashKeepsEnd(path[2..]);
    }
  }

  /** The final-newline allowance is real: `a` matches the path "a\n", which is not the segment `a`. */
  lemma FinalNewlineIsIgnored()
    ensures Supported(Normalized("a"))
    ensures PathMatchesPattern("a\n", "a") == Ok(true)
    ensures !SegmentsMatch(Split("a", '/'), Split("a\n", '/'))
  {
    assert ForwardSlashes("a") == "a" && ForwardSlashes("a\n") == "a\n";
    SplitNone("a", '/');
    SplitNone("a\n", '/');
    PathMatchesExactlySegments("a\n", "a");
    assert "a\n"[..1] == "a";
    assert WildMatch("a", "a");
  }
}
