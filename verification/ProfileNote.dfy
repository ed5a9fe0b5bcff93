/** The profile note of a session: its text is cut into blocks at `## ` headings,
    blocks imported as an identity are kept apart from advisory ones, and the
    advisory part is rendered as the session profile section of the prompt. */
module ProfileNote {
  import opened Text
  import opened LineText

  const IDENTITY_HEADINGS: seq<string> := ["## imported identity.md", "## imported identity.json"]

  // ------------------------------------------------- the reading of a note

  /** What a line belongs to; before the first non-blank line, nothing yet. */
  datatype Part = Start | Identity | Advisory

  /** The part that a block opening with this trimmed line belongs to. */
  function Opens(token: string): (part: Part)
    ensures part != Start
  {
    if ToAsciiLower(token) in IDENTITY_HEADINGS then Identity else Advisory
  }

  predicate IsImportHeading(token: string)
  {
    StartsWith(token, "## ") && StartsWith(ToAsciiLower(token), "## imported ")
  }

  /** One step of the reader: an advisory block ends at any `## ` heading, an
      identity block only at the heading of another import. */
  function Next(part: Part, token: string): Part
  {
    match part
    case Start => Opens(token)
    case Advisory => if StartsWith(token, "## ") then Opens(token) else Advisory
    case Identity => if IsImportHeading(token) then Opens(token) else Identity
  }

  function PartAfter(tokens: seq<string>): (part: Part)
    ensures part.Start? <==> tokens == []
  {
    if tokens == [] then Start
    else Next(PartAfter(tokens[..|tokens| - 1]), tokens[|tokens| - 1])
  }

  /** The trimmed non-blank lines of a note that belong to a part, in order. */
  function Belonging(tokens: seq<string>, part: Part): seq<string>
  {
    if tokens == [] then []
    else
      var n := |tokens| - 1;
      Belonging(tokens[..n], part) + (if PartAfter(tokens) == part then [tokens[n]] else [])
  }

  /** Every non-blank line belongs to exactly one of the two parts. */
  lemma {:induction false} EveryLineBelongs(tokens: seq<string>)
    ensures |Belonging(tokens, Identity)| + |Belonging(tokens, Advisory)| == |tokens|
    ensures multiset(Belonging(tokens, Identity)) + multiset(Belonging(tokens, Advisory)) == multiset(tokens)
  {
    if tokens != [] {
      var n := |tokens| - 1;
      var init, last := tokens[..n], tokens[n];
      assert tokens == init + [last];
      EveryLineBelongs(init);
      assert PartAfter(init + [last]) != Start;
      hide Belonging;
      hide PartAfter;
      hide Next;
      BelongingAppend(init, last, Identity);
      BelongingAppend(init, last, Advisory);
    }
  }

  /** Inside an identity import a `## ` heading opens nothing, unless it is the
      heading of an import itself. */
  lemma {:induction false} NestedHeadingsStayInIdentity(before: seq<string>, after: seq<string>)
    requires PartAfter(before) == Identity
    requires forall i :: 0 <= i < |after| ==> !IsImportHeading(after[i])
    ensures PartAfter(before + after) == Identity
    ensures Belonging(before + after, Identity) == Belonging(before, Identity) + after
    ensures Belonging(before + after, Advisory) == Belonging(before, Advisory)
  {
    if after == [] {
      assert before + after == before;
    } else {
      var n := |after| - 1;
      NestedHeadingsStayInIdentity(before, after[..n]);
      assert (before + after)[..|before + after| - 1] == before + after[..n];
      assert after == after[..n] + [after[n]];
    }
  }

  // ------------------------------------------------------------ blocks

  function FirstNonEmptyLine(lines: seq<string>): Option<string>
  {
    if lines == [] then None
    else if Trim(lines[0]) == "" then FirstNonEmptyLine(lines[1..])
    else Some(Trim(lines[0]))
  }

  predicate IsIdentityBlock(block: string)
  {
    match FirstNonEmptyLine(Lines(block))
    case None => false
    case Some(heading) => ToAsciiLower(Trim(heading)) in IDENTITY_HEADINGS
  }

  /** The lines joined and trimmed, unless nothing is left. */
  function Finalize(lines: seq<string>): Option<string>
  {
    var block := Trim(Join(lines, "\n"));
    if lines == [] || block == "" then None else Some(block)
  }

  predicate ShouldSplit(current: seq<string>, heading: string)
  {
    match Finalize(current)
    case None => false
    case Some(block) =>
      !IsIdentityBlock(block) || StartsWith(ToAsciiLower(Trim(heading)), "## imported ")
  }

  predicate LineFree(lines: seq<string>)
  {
    forall i :: 0 <= i < |lines| ==> '\n' !in lines[i]
  }

  lemma {:induction false} FirstTokenIsFirstLine(lines: seq<string>)
    ensures FirstNonEmptyLine(lines) == if TokensOf(lines) == [] then None else Some(TokensOf(lines)[0])
  {
    if lines != [] {
      FirstTokenIsFirstLine(lines[1..]);
    }
  }

  lemma {:induction false} TokensAreTrimmed(lines: seq<string>, i: nat)
    requires i < |TokensOf(lines)|
    ensures Trim(TokensOf(lines)[i]) == TokensOf(lines)[i]
  {
    TrimIdempotent(lines[0]);
    var n := |Token(lines[0])|;
    if i >= n {
      TokensAreTrimmed(lines[1..], i - n);
    }
  }

  /** A block is an identity import exactly when its first non-blank line opens one. */
  lemma IdentityByFirstToken(block: string)
    ensures IsIdentityBlock(block) <==> Tokens(block) != [] && Opens(Tokens(block)[0]) == Identity
  {
    TokensOfLines(block);
    FirstTokenIsFirstLine(Lines(block));
    if Tokens(block) != [] {
      TokensAreTrimmed(Lines(block), 0);
    }
  }

  lemma FinalizeTokens(lines: seq<string>)
    requires LineFree(lines)
    ensures Finalize(lines).None? <==> TokensOf(lines) == []
    ensures Finalize(lines).Some? ==> Tokens(Finalize(lines).value) == TokensOf(lines)
  {
    TokensJoin(lines);
    TokensTrim(Join(lines, "\n"));
    NoTokensExactlyBlank(Join(lines, "\n"));
  }

  /** The part that the block being collected belongs to. */
  function Current(tokens: seq<string>): Part
  {
    if tokens == [] then Start else Opens(tokens[0])
  }

  /** The code splits before a heading exactly when the reader leaves its block. */
  lemma SplitMeaning(current: seq<string>, heading: string)
    requires LineFree(current) && Trim(heading) == heading
    ensures ShouldSplit(current, heading) <==>
      match Current(TokensOf(current))
      case Start => false
      case Advisory => true
      case Identity => StartsWith(ToAsciiLower(heading), "## imported ")
  {
    hide Tokens;
    hide TokensOf;
    hide Trim;
    hide IsIdentityBlock;
    FinalizeTokens(current);
    if Finalize(current).Some? {
      IdentityByFirstToken(Finalize(current).value);
    }
  }

  /** The tokens of those blocks that belong to a part. */
  function BlockTokens(blocks: seq<string>, part: Part): seq<string>
  {
    if blocks == [] then []
    else
      var n := |blocks| - 1;
      BlockTokens(blocks[..n], part)
      + (if Current(Tokens(blocks[n])) == part then Tokens(blocks[n]) else [])
  }

  lemma BlockTokensAppend(blocks: seq<string>, block: string, part: Part)
    ensures BlockTokens(blocks + [block], part) ==
      BlockTokens(blocks, part) + (if Current(Tokens(block)) == part then Tokens(block) else [])
  {
    assert (blocks + [block])[..|blocks|] == blocks;
  }

  predicate Solids(blocks: seq<string>)
  {
    forall i :: 0 <= i < |blocks| ==> blocks[i] != "" && Trim(blocks[i]) == blocks[i]
  }

  /** What has been read so far: the finished blocks, the lines being collected,
      and the tokens of both. */
  ghost predicate Reading(blocks: seq<string>, current: seq<string>, seen: seq<string>)
  {
    && Solids(blocks)
    && LineFree(current)
    && Current(TokensOf(current)) == PartAfter(seen)
    && ReadingPart(blocks, current, seen, Identity)
    && ReadingPart(blocks, current, seen, Advisory)
  }

  ghost predicate ReadingPart(blocks: seq<string>, current: seq<string>, seen: seq<string>, part: Part)
  {
    Belonging(seen, part) ==
    BlockTokens(blocks, part) + (if Current(TokensOf(current)) == part then TokensOf(current) else [])
  }

  lemma TokensOfAppend(lines: seq<string>, line: string)
    ensures TokensOf(lines + [line]) == TokensOf(lines) + Token(line)
  {
    TokensOfConcat(lines, [line]);
    TokensOfOne(line);
  }

  lemma BelongingAppend(seen: seq<string>, token: string, part: Part)
    ensures PartAfter(seen + [token]) == Next(PartAfter(seen), token)
    ensures Belonging(seen + [token], part) ==
      Belonging(seen, part) + (if Next(PartAfter(seen), token) == part then [token] else [])
  {
    assert (seen + [token])[..|seen|] == seen;
  }

  /** A line that does not split the block is collected into it. */
  lemma CollectKeepsReading(blocks: seq<string>, current: seq<string>, seen: seq<string>, line: string)
    requires Reading(blocks, current, seen) && '\n' !in line
    requires Trim(line) == "" || Next(PartAfter(seen), Trim(line)) == Current(TokensOf(current) + [Trim(line)])
    ensures Reading(blocks, current + [line], seen + Token(line))
  {
    hide Solids;
    hide Opens;
    hide Next;
    hide Trim;
    hide TokensOf;
    hide Belonging;
    hide PartAfter;
    hide BlockTokens;
    TokensOfAppend(current, line);
    if Trim(line) == "" {
      assert seen + Token(line) == seen;
      assert TokensOf(current) + Token(line) == TokensOf(current);
    } else {
      CollectPart(blocks, current, seen, line, Identity);
      CollectPart(blocks, current, seen, line, Advisory);
    }
  }

  lemma CollectPart(blocks: seq<string>, current: seq<string>, seen: seq<string>, line: string, part: Part)
    requires ReadingPart(blocks, current, seen, part) && part != Start
    requires Current(TokensOf(current)) == PartAfter(seen) && Trim(line) != ""
    requires Next(PartAfter(seen), Trim(line)) == Current(TokensOf(current) + [Trim(line)])
    ensures ReadingPart(blocks, current + [line], seen + Token(line), part)
    ensures PartAfter(seen + Token(line)) == Current(TokensOf(current + [line]))
  {
    hide Opens;
    hide Next;
    hide Trim;
    hide TokensOf;
    hide Belonging;
    hide PartAfter;
    hide BlockTokens;
    TokensOfAppend(current, line);
    BelongingAppend(seen, Trim(line), part);
    var tokens := TokensOf(current);
    if tokens != [] {
      assert (tokens + [Trim(line)])[0] == tokens[0];
    }
  }

  /** Ending the block keeps everything read. */
  lemma EndBlockKeepsReading(blocks: seq<string>, current: seq<string>, seen: seq<string>)
    requires Reading(blocks, current, seen) && Finalize(current).Some?
    ensures Solids(blocks + [Finalize(current).value])
    ensures forall part :: part != Start ==>
      Belonging(seen, part) == BlockTokens(blocks + [Finalize(current).value], part)
  {
    hide Opens;
    hide Trim;
    hide Tokens;
    hide TokensOf;
    hide Belonging;
    hide PartAfter;
    hide BlockTokens;
    FinalizeTokens(current);
    TrimIdempotent(Join(current, "\n"));
    BlockTokensAppend(blocks, Finalize(current).value, Identity);
    BlockTokensAppend(blocks, Finalize(current).value, Advisory);
  }

  lemma OpenKeepsReading(blocks: seq<string>, seen: seq<string>, line: string)
    requires Solids(blocks) && '\n' !in line && Trim(line) != ""
    requires forall part :: part != Start ==> Belonging(seen, part) == BlockTokens(blocks, part)
    requires Next(PartAfter(seen), Trim(line)) == Opens(Trim(line))
    ensures Reading(blocks, [line], seen + Token(line))
  {
    hide Solids;
    hide Opens;
    hide Next;
    hide Trim;
    hide TokensOf;
    hide Belonging;
    hide PartAfter;
    hide BlockTokens;
    TokensOfOne(line);
    BelongingAppend(seen, Trim(line), Identity);
    BelongingAppend(seen, Trim(line), Advisory);
  }

  ghost predicate Splits(current: seq<string>, line: string)
  {
    StartsWith(Trim(line), "## ") && current != [] && ShouldSplit(current, Trim(line))
  }

  /** The two ways a line can be taken are the reader's two ways. */
  lemma SplitsMeaning(current: seq<string>, part: Part, line: string)
    requires LineFree(current) && Current(TokensOf(current)) == part && Trim(line) != ""
    ensures Splits(current, line) ==> Next(part, Trim(line)) == Opens(Trim(line))
    ensures Splits(current, line) ==> Finalize(current).Some?
    ensures !Splits(current, line) ==> Next(part, Trim(line)) == Current(TokensOf(current) + [Trim(line)])
  {
    hide ToAsciiLower;
    hide IsIdentityBlock;
    hide Trim;
    TrimIdempotent(line);
    SplitMeaning(current, Trim(line));
    var tokens := TokensOf(current);
    if tokens != [] {
      assert (tokens + [Trim(line)])[0] == tokens[0];
    } else {
      assert (tokens + [Trim(line)])[0] == Trim(line);
    }
  }

  /** The blocks hold the lines of the note, each in a block of its part. */
  ghost predicate BlocksOf(note: string, blocks: seq<string>)
  {
    && Solids(blocks)
    && BlockTokens(blocks, Identity) == Belonging(Tokens(note), Identity)
    && BlockTokens(blocks, Advisory) == Belonging(Tokens(note), Advisory)
  }

  method SplitProfileNoteBlocks(note: string) returns (blocks: seq<string>)
    ensures BlocksOf(note, blocks)
  {
    hide Tokens;
    hide TokensOf;
    hide Belonging;
    hide PartAfter;
    hide BlockTokens;
    hide Reading;
    hide Trim;
    hide Next;
    hide ShouldSplit;
    hide Opens;
    hide Finalize;
    blocks := [];
    var current: seq<string> := [];
    var lines := Lines(note);
    ReadingEmpty();
    for k := 0 to |lines|
      invariant Reading(blocks, current, TokensOf(lines[..k]))
    {
      var line := lines[k];
      ghost var seen := TokensOf(lines[..k]);
      assert lines[..k + 1] == lines[..k] + [line];
      TokensOfAppend(lines[..k], line);
      ReadingFacts(blocks, current, seen);
      TakeLine(blocks, current, seen, line);
      if StartsWith(Trim(line), "## ") && current != [] && ShouldSplit(current, Trim(line)) {
        var block := Finalize(current);
        if block.Some? {
          blocks := blocks + [block.value];
        }
        current := [];
      }
      current := current + [line];
      assert [] + [line] == [line];
    }
    assert lines[..|lines|] == lines;
    TokensOfLines(note);
    EndOfNote(blocks, current, TokensOf(lines));
    var last := Finalize(current);
    if last.Some? {
      blocks := blocks + [last.value];
    }
  }

  lemma ReadingEmpty()
    ensures Reading([], [], TokensOf([]))
  {
  }

  lemma ReadingFacts(blocks: seq<string>, current: seq<string>, seen: seq<string>)
    requires Reading(blocks, current, seen)
    ensures LineFree(current) && Current(TokensOf(current)) == PartAfter(seen)
  {
  }

  lemma TakeLine(blocks: seq<string>, current: seq<string>, seen: seq<string>, line: string)
    requires Reading(blocks, current, seen) && '\n' !in line
    ensures Splits(current, line) ==>
      Finalize(current).Some? && Reading(blocks + [Finalize(current).value], [line], seen + Token(line))
    ensures !Splits(current, line) ==> Reading(blocks, current + [line], seen + Token(line))
  {
    hide Reading;
    hide Trim;
    hide Next;
    hide TokensOf;
    hide Belonging;
    hide BlockTokens;
    hide PartAfter;
    hide Finalize;
    hide ShouldSplit;
    hide Opens;
    ReadingFacts(blocks, current, seen);
    if Trim(line) == "" {
      CollectKeepsReading(blocks, current, seen, line);
    } else {
      SplitsMeaning(current, PartAfter(seen), line);
      if Splits(current, line) {
        EndBlockKeepsReading(blocks, current, seen);
        OpenKeepsReading(blocks + [Finalize(current).value], seen, line);
      } else {
        CollectKeepsReading(blocks, current, seen, line);
      }
    }
  }

  lemma EndOfNote(blocks: seq<string>, current: seq<string>, seen: seq<string>)
    requires Reading(blocks, current, seen)
    ensures var all := if Finalize(current).Some? then blocks + [Finalize(current).value] else blocks;
      && Solids(all)
      && BlockTokens(all, Identity) == Belonging(seen, Identity)
      && BlockTokens(all, Advisory) == Belonging(seen, Advisory)
  {
    hide Tokens;
    hide TokensOf;
    hide Belonging;
    hide BlockTokens;
    hide PartAfter;
    hide Opens;
    hide Finalize;
    if Finalize(current).Some? {
      EndBlockKeepsReading(blocks, current, seen);
    } else {
      FinalizeTokens(current);
    }
  }

  // ------------------------------------------------------------ partition

  /** The tokens of all blocks, in order. */
  function AllTokens(blocks: seq<string>): seq<string>
  {
    if blocks == [] then []
    else AllTokens(blocks[..|blocks| - 1]) + Tokens(blocks[|blocks| - 1])
  }

  lemma AllTokensAppend(blocks: seq<string>, block: string)
    ensures AllTokens(blocks + [block]) == AllTokens(blocks) + Tokens(block)
  {
    assert (blocks + [block])[..|blocks|] == blocks;
  }

  /** The identity blocks hold exactly the lines of the note that belong to the
      identity, in order, and the advisory blocks the other ones. */
  method PartitionProfileNote(note: string) returns (identity: seq<string>, advisory: seq<string>)
    ensures Solids(identity) && Solids(advisory)
    ensures AllTokens(identity) == Belonging(Tokens(note), Identity)
    ensures AllTokens(advisory) == Belonging(Tokens(note), Advisory)
  {
    hide Tokens;
    hide BlockTokens;
    hide AllTokens;
    hide IsIdentityBlock;
    hide Trim;
    hide Belonging;
    hide Opens;
    identity, advisory := [], [];
    var blocks := SplitProfileNoteBlocks(note);
    PartitionEmpty();
    for k := 0 to |blocks|
      invariant Solids(identity) && Solids(advisory)
      invariant AllTokens(identity) == BlockTokens(blocks[..k], Identity)
      invariant AllTokens(advisory) == BlockTokens(blocks[..k], Advisory)
    {
      var block := blocks[k];
      assert blocks[..k + 1] == blocks[..k] + [block];
      BlockTokensAppend(blocks[..k], block, Identity);
      BlockTokensAppend(blocks[..k], block, Advisory);
      IdentityByFirstToken(block);
      NoTokensExactlyBlank(block);
      AllTokensAppend(identity, block);
      AllTokensAppend(advisory, block);
      if IsIdentityBlock(block) {
        identity := identity + [block];
      } else {
        advisory := advisory + [block];
      }
    }
    assert blocks[..|blocks|] == blocks;
  }

  lemma PartitionEmpty()
    ensures AllTokens([]) == [] && BlockTokens([], Identity) == [] && BlockTokens([], Advisory) == []
  {
  }

  /** Joins the non-blank blocks with an empty line between them. */
  method JoinBlocks(blocks: seq<string>) returns (r: Option<string>)
    ensures r.None? <==> AllTokens(blocks) == []
    ensures r.Some? ==> Trim(r.value) != "" && Tokens(r.value) == AllTokens(blocks)
  {
    hide Tokens;
    hide AllTokens;
    hide Trim;
    var normalized: seq<string> := [];
    PartitionEmpty();
    for k := 0 to |blocks|
      invariant Solids(normalized)
      invariant AllTokens(normalized) == AllTokens(blocks[..k])
    {
      var trimmed := Trim(blocks[k]);
      assert blocks[..k + 1] == blocks[..k] + [blocks[k]];
      AllTokensAppend(blocks[..k], blocks[k]);
      TokensTrim(blocks[k]);
      TrimIdempotent(blocks[k]);
      NoTokensExactlyBlank(trimmed);
      if trimmed != "" {
        AllTokensAppend(normalized, trimmed);
        normalized := normalized + [trimmed];
      }
    }
    assert blocks[..|blocks|] == blocks;
    if normalized == [] {
      return None;
    }
    JoinedTokens(normalized);
    NoTokensExactlyBlank(Join(normalized, "\n\n"));
    r := Some(Join(normalized, "\n\n"));
  }

  lemma {:induction false} AllTokensCons(blocks: seq<string>)
    requires blocks != []
    ensures AllTokens(blocks) == Tokens(blocks[0]) + AllTokens(blocks[1..])
  {
    hide Tokens;
    var n := |blocks| - 1;
    if n == 0 {
      assert blocks[..0] == [] && blocks[1..] == [];
    } else {
      AllTokensCons(blocks[..n]);
      assert blocks[..n][1..] == blocks[1..][..n - 1] && blocks[1..][n - 1] == blocks[n];
    }
  }

  lemma {:induction false} JoinedTokens(blocks: seq<string>)
    requires blocks != [] && Solids(blocks)
    ensures Tokens(Join(blocks, "\n\n")) == AllTokens(blocks) != []
  {
    hide Tokens;
    hide AllTokens;
    hide Trim;
    AllTokensCons(blocks);
    NoTokensExactlyBlank(blocks[0]);
    if |blocks| == 1 {
      PartitionEmpty();
      assert blocks[1..] == [];
    } else {
      var rest := Join(blocks[1..], "\n\n");
      JoinedTokens(blocks[1..]);
      assert blocks[0] + "\n\n" + rest == blocks[0] + "\n" + ("" + "\n" + rest);
      TokensConcat("", rest);
      TokensConcat(blocks[0], "" + "\n" + rest);
      TokensEmpty();
    }
  }
}
