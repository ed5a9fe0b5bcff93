/** Line splitting as `str::lines` does it, and the trimmed non-blank lines of a text. */
module LineText {
  import opened Text

  function StripCr(line: string): string
  {
    if line != "" && line[|line| - 1] == '\r' then line[..|line| - 1] else line
  }

  /** Lines end at `\n` or `\r\n`; a final line ending starts no further line. */
  function Lines(s: string): (lines: seq<string>)
    ensures forall i :: 0 <= i < |lines| ==> '\n' !in lines[i]
    decreases |s|
  {
    var i := IndexOf(s, '\n');
    if s == "" then [] else if i == |s| then [s] else [StripCr(s[..i])] + Lines(s[i + 1..])
  }

  lemma LinesCons(p: string, rest: string)
    requires '\n' !in p
    ensures Lines(p + "\n" + rest) == [StripCr(p)] + Lines(rest)
  {
    var s := p + "\n" + rest;
    assert s[..|p|] == p && s[|p| + 1..] == rest;
    IndexOfUnique(s, '\n', |p|);
  }

  lemma LinesSingle(p: string)
    requires '\n' !in p
    ensures Lines(p) == if p == "" then [] else [p]
  {
    IndexOfUnique(p, '\n', |p|);
  }

  lemma TrimStripCr(line: string)
    ensures Trim(StripCr(line)) == Trim(line)
  {
    if StripCr(line) != line {
      TrimPad("", StripCr(line), "\r");
      assert line == "" + StripCr(line) + "\r";
    }
  }

  /** Joining lines and splitting again gives the same lines up to white space at
      their ends, except that an empty last line is not seen again. */
  lemma {:induction false} LinesOfJoin(ls: seq<string>)
    requires forall i :: 0 <= i < |ls| ==> '\n' !in ls[i]
    ensures var lines := Lines(Join(ls, "\n"));
      && |ls| - 1 <= |lines| <= |ls|
      && (forall i :: 0 <= i < |lines| ==> Trim(lines[i]) == Trim(ls[i]))
      && (|lines| < |ls| ==> ls[|ls| - 1] == "")
      && (|ls| > 1 ==> lines[0] == StripCr(ls[0]))
  {
    if |ls| == 1 {
      LinesSingle(ls[0]);
    } else if |ls| > 1 {
      LinesOfJoin(ls[1..]);
      LinesCons(ls[0], Join(ls[1..], "\n"));
      TrimStripCr(ls[0]);
      var rest := Lines(Join(ls[1..], "\n"));
      assert Lines(Join(ls, "\n")) == [StripCr(ls[0])] + rest;
      assert forall i :: 0 <= i < |rest| ==> Trim(rest[i]) == Trim(ls[1..][i]) == Trim(ls[i + 1]);
    }
  }

  // -------------------------------------------------- trimmed non-blank lines

  function Token(line: string): seq<string>
  {
    if Trim(line) == "" then [] else [Trim(line)]
  }

  function TokensOf(lines: seq<string>): seq<string>
  {
    if lines == [] then [] else Token(lines[0]) + TokensOf(lines[1..])
  }

  /** The trimmed non-blank lines of a text, in order; lines end at `c`. */
  function Tokens(s: string, c: char := '\n'): seq<string>
  {
    TokensOf(Split(s, c))
  }

  lemma {:induction false} TokensOfConcat(a: seq<string>, b: seq<string>)
    ensures TokensOf(a + b) == TokensOf(a) + TokensOf(b)
  {
    if a == [] {
      assert a + b == b;
    } else {
      assert (a + b)[1..] == a[1..] + b;
      TokensOfConcat(a[1..], b);
    }
  }

  lemma TokensOfOne(line: string, c: char := '\n')
    ensures TokensOf([line]) == Token(line)
    ensures c !in line ==> Tokens(line, c) == Token(line)
  {
    assert [line][1..] == [];
    if c !in line {
      SplitNone(line, c);
    }
  }

  /** Splitting into lines loses no token. */
  lemma {:induction false} TokensOfLines(s: string)
    ensures TokensOf(Lines(s)) == Tokens(s)
    decreases |s|
  {
    var i := IndexOf(s, '\n');
    if s == "" {
      SplitNone("", '\n');
      TokensOfOne("");
    } else if i < |s| {
      TokensOfLines(s[i + 1..]);
      TrimStripCr(s[..i]);
      TokensOfConcat([StripCr(s[..i])], Lines(s[i + 1..]));
      TokensOfConcat([s[..i]], Split(s[i + 1..], '\n'));
      TokensOfOne(StripCr(s[..i]));
      TokensOfOne(s[..i]);
    }
  }

  lemma {:induction false} SplitConcat(a: string, c: char, b: string)
    ensures Split(a + [c] + b, c) == Split(a, c) + Split(b, c)
    decreases |a|
  {
    hide Split;
    var i := IndexOf(a, c);
    if i == |a| {
      SplitNone(a, c);
      SplitCons(a, c, b);
    } else {
      var head, rest := a[..i], a[i + 1..];
      assert a == head + [c] + rest;
      SplitConcat(rest, c, b);
      SplitCons(head, c, rest);
      assert a + [c] + b == head + [c] + (rest + [c] + b);
      SplitCons(head, c, rest + [c] + b);
    }
  }

  lemma TokensConcat(a: string, b: string, c: char := '\n')
    ensures Tokens(a + [c] + b, c) == Tokens(a, c) + Tokens(b, c)
  {
    SplitConcat(a, c, b);
    TokensOfConcat(Split(a, c), Split(b, c));
  }

  lemma {:induction false} TokensJoin(ls: seq<string>)
    requires forall i :: 0 <= i < |ls| ==> '\n' !in ls[i]
    ensures Tokens(Join(ls, "\n")) == TokensOf(ls)
  {
    if ls == [] {
      SplitNone("", '\n');
      TokensOfOne("");
    } else if |ls| == 1 {
      TokensOfOne(ls[0]);
      assert ls == [ls[0]];
    } else {
      TokensJoin(ls[1..]);
      TokensConcat(ls[0], Join(ls[1..], "\n"));
      TokensOfOne(ls[0]);
    }
  }

  lemma TokensEmpty(c: char := '\n')
    ensures Tokens("", c) == []
  {
    TokensOfOne("", c);
  }

  lemma TokenPad(a: string, line: string, b: string, c: char)
    requires Blank(a) && Blank(b)
    requires c !in a + line + b
    ensures Tokens(a + line + b, c) == Tokens(line, c)
  {
    TrimPad(a, line, b);
    assert c !in line by {
      assert forall i :: 0 <= i < |line| ==> line[i] == (a + line + b)[|a| + i];
    }
    TokensOfOne(a + line + b, c);
    TokensOfOne(line, c);
  }

  lemma TokensPadFront(x: char, s: string, c: char)
    requires IsWhitespace(x)
    ensures Tokens([x] + s, c) == Tokens(s, c)
  {
    hide Tokens;
    hide IsWhitespace;
    if x == c {
      TokensConcat("", s, c);
      assert "" + [c] + s == [x] + s;
      TokensEmpty(c);
    } else {
      var i := IndexOf(s, c);
      assert [x] + s[..i] + "" == [x] + s[..i];
      TokenPad([x], s[..i], "", c);
      if i == |s| {
        assert s[..i] == s;
      } else {
        assert [x] + s == ([x] + s[..i]) + [c] + s[i + 1..] && s == s[..i] + [c] + s[i + 1..];
        TokensConcat([x] + s[..i], s[i + 1..], c);
        TokensConcat(s[..i], s[i + 1..], c);
      }
    }
  }

  lemma {:induction false} TokensPadBack(s: string, x: char, c: char)
    requires IsWhitespace(x)
    ensures Tokens(s + [x], c) == Tokens(s, c)
    decreases |s|
  {
    hide Tokens;
    hide IsWhitespace;
    var i := IndexOf(s, c);
    if x == c {
      TokensConcat(s, "", c);
      assert s + [c] + "" == s + [x];
      TokensEmpty(c);
    } else if i == |s| {
      assert "" + s + [x] == s + [x];
      TokenPad("", s, [x], c);
    } else {
      assert s + [x] == s[..i] + [c] + (s[i + 1..] + [x]) && s == s[..i] + [c] + s[i + 1..];
      TokensPadBack(s[i + 1..], x, c);
      TokensConcat(s[..i], s[i + 1..] + [x], c);
      TokensConcat(s[..i], s[i + 1..], c);
    }
  }

  lemma {:induction false} TokensPad(a: string, s: string, b: string, c: char)
    requires Blank(a) && Blank(b)
    ensures Tokens(a + s + b, c) == Tokens(s, c)
    decreases |a| + |b|
  {
    hide Tokens;
    hide IsWhitespace;
    if a != "" {
      TokensPad(a[1..], s, b, c);
      assert a + s + b == [a[0]] + (a[1..] + s + b);
      TokensPadFront(a[0], a[1..] + s + b, c);
    } else if b != "" {
      var n := |b| - 1;
      TokensPad(a, s, b[..n], c);
      assert a + s + b == (a + s + b[..n]) + [b[n]];
      TokensPadBack(a + s + b[..n], b[n], c);
    } else {
      assert a + s + b == s;
    }
  }

  /** Trimming a text keeps its tokens. */
  lemma TokensTrim(s: string, c: char := '\n')
    ensures Tokens(Trim(s), c) == Tokens(s, c)
  {
    var a, b := TrimSplit(s);
    TokensPad(a, Trim(s), b, c);
  }

  /** A text has no token exactly when it is blank. */
  lemma {:induction false} NoTokensExactlyBlank(s: string)
    ensures Tokens(s) == [] <==> Trim(s) == ""
    decreases |s|
  {
    hide Tokens;
    hide Trim;
    BlankTrim(s);
    var i := IndexOf(s, '\n');
    BlankTrim(s[..i]);
    TokensOfOne(s[..i]);
    if i < |s| {
      var rest := s[i + 1..];
      NoTokensExactlyBlank(rest);
      BlankTrim(rest);
      BlankSplit(s, i);
      assert s == s[..i] + "\n" + rest;
      TokensConcat(s[..i], rest);
    } else {
      assert s[..i] == s;
    }
  }

  lemma BlankSplit(s: string, i: nat)
    requires i < |s| && s[i] == '\n'
    ensures Blank(s) <==> Blank(s[..i]) && Blank(s[i + 1..])
  {
    if Blank(s[..i]) && Blank(s[i + 1..]) {
      forall j | 0 <= j < |s| ensures IsWhitespace(s[j]) {
        if j < i {
          assert s[j] == s[..i][j];
        } else if j > i {
          assert s[j] == s[i + 1..][j - i - 1];
        }
      }
    }
  }

  // -------------------------------------------------- lines as CommonMark ends them

  /** The trimmed non-blank lines of a text when a carriage return alone ends a line
      too, as in section 2.1 of the CommonMark specification. */
  function MarkTokens(s: string): seq<string>
  {
    MarkTokensOf(Split(s, '\n'))
  }

  function MarkTokensOf(lines: seq<string>): seq<string>
  {
    if lines == [] then [] else Tokens(lines[0], '\r') + MarkTokensOf(lines[1..])
  }

  lemma MarkTokensOfJoin(ls: seq<string>)
    requires ls != [] && forall i :: 0 <= i < |ls| ==> '\n' !in ls[i]
    ensures MarkTokens(Join(ls, "\n")) == MarkTokensOf(ls)
  {
    hide MarkTokensOf;
    SplitJoin(ls, '\n');
  }
}
