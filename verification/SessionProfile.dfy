/** The session profile section of the prompt, rendered from the advisory part of
    the profile note and from the operator's personalization. */
module SessionProfile {
  import opened Text
  import opened LineText
  import opened AdvisoryPrompt
  import opened ProfileNote

  datatype Density = Concise | BalancedDensity | Thorough

  datatype Initiative = AskBeforeActing | BalancedInitiative | HighInitiative

  datatype Personalization = Personalization(
    preferredName: Option<string>,
    density: Option<Density>,
    initiative: Option<Initiative>,
    boundaries: Option<string>,
    timezone: Option<string>,
    locale: Option<string>,
    promptPending: bool)

  const HEADING := "## Session Profile"
  const INTRO := "Durable preferences and " + "advisory session context " + "carried into this session:"

  // ------------------------------------------------------------ the two sources

  function TrimOptional(raw: Option<string>): Option<string>
  {
    if raw.None? || Trim(raw.value) == "" then None else Some(Trim(raw.value))
  }

  function Normalized(p: Personalization): Option<Personalization>
  {
    var q := p.(preferredName := TrimOptional(p.preferredName), boundaries := TrimOptional(p.boundaries),
                timezone := TrimOptional(p.timezone), locale := TrimOptional(p.locale));
    if HasPreference(q) || !q.promptPending then Some(q) else None
  }

  predicate HasPreference(p: Personalization)
  {
    || TrimOptional(p.preferredName).Some? || p.density.Some? || p.initiative.Some?
    || TrimOptional(p.boundaries).Some? || TrimOptional(p.timezone).Some? || TrimOptional(p.locale).Some?
  }

  function DensityText(d: Density): string
  {
    match d
    case Concise => "concise"
    case BalancedDensity => "balanced"
    case Thorough => "thorough"
  }

  function InitiativeText(i: Initiative): string
  {
    match i
    case AskBeforeActing => "ask_before_acting"
    case BalancedInitiative => "balanced"
    case HighInitiative => "high_initiative"
  }

  function Labelled(caption: string, value: Option<string>): seq<string>
  {
    if value.Some? then [caption + value.value] else []
  }

  /** The lines of the preferences that are set, in the order they are shown. */
  function PreferenceLines(p: Personalization): seq<string>
  {
    Labelled("Preferred name: ", TrimOptional(p.preferredName))
    + (if p.density.Some? then ["Response density: " + DensityText(p.density.value)] else [])
    + (if p.initiative.Some? then ["Initiative level: " + InitiativeText(p.initiative.value)] else [])
    + (if TrimOptional(p.boundaries).Some? then ["Standing boundaries:", Trim(p.boundaries.value)] else [])
    + Labelled("Timezone: ", TrimOptional(p.timezone))
    + Labelled("Locale: ", TrimOptional(p.locale))
  }

  function PreferenceTokens(personalization: Option<Personalization>): seq<string>
  {
    if personalization.None? || !HasPreference(personalization.value) then []
    else Tokens(Join(PreferenceLines(personalization.value), "\n"))
  }

  /** Each preference that is set is shown on a line of its own, in its own words. */
  lemma PreferencesShown(p: Personalization)
    ensures var lines := PreferenceLines(p);
      && (p.density == Some(Concise) ==> "Response density: " + "concise" in lines)
      && (p.density == Some(BalancedDensity) ==> "Response density: " + "balanced" in lines)
      && (p.density == Some(Thorough) ==> "Response density: " + "thorough" in lines)
      && (p.initiative == Some(AskBeforeActing) ==> "Initiative level: " + "ask_before_acting" in lines)
      && (p.initiative == Some(BalancedInitiative) ==> "Initiative level: " + "balanced" in lines)
      && (p.initiative == Some(HighInitiative) ==> "Initiative level: " + "high_initiative" in lines)
  {
    hide PreferenceLines;
    if p.density.Some? {
      DensityShown(p);
    }
    if p.initiative.Some? {
      InitiativeShown(p);
    }
  }

  lemma DensityShown(p: Personalization)
    requires p.density.Some?
    ensures "Response density: " + DensityText(p.density.value) in PreferenceLines(p)
  {
    hide TrimOptional;
    hide Labelled;
    hide DensityText;
    hide InitiativeText;
    hide Trim;
    var at := |Labelled("Preferred name: ", TrimOptional(p.preferredName))|;
    assert PreferenceLines(p)[at] == "Response density: " + DensityText(p.density.value);
  }

  lemma InitiativeShown(p: Personalization)
    requires p.initiative.Some?
    ensures "Initiative level: " + InitiativeText(p.initiative.value) in PreferenceLines(p)
  {
    hide TrimOptional;
    hide Labelled;
    hide DensityText;
    hide InitiativeText;
    hide Trim;
    var at := |Labelled("Preferred name: ", TrimOptional(p.preferredName))| + if p.density.Some? then 1 else 0;
    assert PreferenceLines(p)[at] == "Initiative level: " + InitiativeText(p.initiative.value);
  }

  /** With everything set, the lines and their order. */
  lemma AllPreferencesShown(p: Personalization, name: string, boundaries: string, timezone: string, locale: string)
    requires TrimOptional(p.preferredName) == Some(name) && TrimOptional(p.boundaries) == Some(boundaries)
    requires TrimOptional(p.timezone) == Some(timezone) && TrimOptional(p.locale) == Some(locale)
    requires p.density.Some? && p.initiative.Some?
    ensures var lines := PreferenceLines(p);
      && |lines| == 7 && lines[0] == "Preferred name: " + name
      && "Response density: " <= lines[1] && "Initiative level: " <= lines[2]
      && lines[3] == "Standing boundaries:" && lines[4] == boundaries
      && lines[5] == "Timezone: " + timezone && lines[6] == "Locale: " + locale
  {
  }

  /** There is a text exactly when some preference is set to more than white space;
      the prompt state alone makes none. */
  method RenderAdvisoryPersonalization(personalization: Option<Personalization>) returns (r: Option<string>)
    ensures r.Some? <==> personalization.Some? && HasPreference(personalization.value)
    ensures r.Some? ==> Trim(r.value) != "" && r.value == Join(PreferenceLines(personalization.value), "\n")
  {
    hide Join;
    hide PreferenceLines;
    if personalization.None? {
      return None;
    }
    NormalizedIsStable(personalization.value);
    var normalized := Normalized(personalization.value);
    if normalized.None? {
      return None;
    }
    var lines := PersonalizationLines(normalized.value);
    PreferenceLinesShow(normalized.value);
    if lines == [] {
      return None;
    }
    JoinStartsWithFirst(lines);
    r := Some(Join(lines, "\n"));
    StartsInked(r.value);
  }

  lemma NormalizedIsStable(p: Personalization)
    ensures Normalized(p).None? ==> !HasPreference(p)
    ensures Normalized(p).Some? ==>
      var q := Normalized(p).value;
      && TrimOptional(q.preferredName) == q.preferredName && TrimOptional(q.boundaries) == q.boundaries
      && TrimOptional(q.timezone) == q.timezone && TrimOptional(q.locale) == q.locale
      && PreferenceLines(q) == PreferenceLines(p) && (HasPreference(q) <==> HasPreference(p))
  {
    TrimOptionalTwice(p.preferredName);
    TrimOptionalTwice(p.boundaries);
    TrimOptionalTwice(p.timezone);
    TrimOptionalTwice(p.locale);
  }

  method PersonalizationLines(p: Personalization) returns (lines: seq<string>)
    requires TrimOptional(p.preferredName) == p.preferredName && TrimOptional(p.boundaries) == p.boundaries
    requires TrimOptional(p.timezone) == p.timezone && TrimOptional(p.locale) == p.locale
    ensures lines == PreferenceLines(p)
  {
    hide Trim;
    hide DensityText;
    hide InitiativeText;
    TrimOptionalValue(p.boundaries);
    hide TrimOptional;
    lines := [];
    if p.preferredName.Some? {
      lines := lines + ["Preferred name: " + p.preferredName.value];
    }
    ghost var shown := Labelled("Preferred name: ", p.preferredName);
    assert lines == shown;
    if p.density.Some? {
      lines := lines + ["Response density: " + DensityText(p.density.value)];
    }
    shown := shown + (if p.density.Some? then ["Response density: " + DensityText(p.density.value)] else []);
    assert lines == shown;
    if p.initiative.Some? {
      lines := lines + ["Initiative level: " + InitiativeText(p.initiative.value)];
    }
    shown := shown + (if p.initiative.Some? then ["Initiative level: " + InitiativeText(p.initiative.value)] else []);
    assert lines == shown;
    if p.boundaries.Some? {
      lines := lines + ["Standing boundaries:"];
      lines := lines + [p.boundaries.value];
    }
    shown := shown + (if p.boundaries.Some? then ["Standing boundaries:", p.boundaries.value] else []);
    assert lines == shown;
    if p.timezone.Some? {
      lines := lines + ["Timezone: " + p.timezone.value];
    }
    shown := shown + Labelled("Timezone: ", p.timezone);
    assert lines == shown;
    if p.locale.Some? {
      lines := lines + ["Locale: " + p.locale.value];
    }
    assert lines == shown + Labelled("Locale: ", p.locale);
  }

  lemma TrimOptionalValue(raw: Option<string>)
    ensures TrimOptional(raw).Some? ==> TrimOptional(raw).value == Trim(raw.value)
  {
  }

  /** Starts, if it starts at all, with a visible character. */
  predicate Inked(lines: seq<string>)
  {
    lines == [] || (lines[0] != "" && !IsWhitespace(lines[0][0]))
  }

  lemma PreferenceLinesShow(p: Personalization)
    ensures PreferenceLines(p) == [] <==> !HasPreference(p)
    ensures Inked(PreferenceLines(p))
  {
    hide TrimOptional;
    hide DensityText;
    hide InitiativeText;
    hide Trim;
    assert "Preferred name: "[0] == 'P' && "Response density: "[0] == 'R' && "Initiative level: "[0] == 'I';
    assert "Standing boundaries:"[0] == 'S' && "Timezone: "[0] == 'T' && "Locale: "[0] == 'L';
  }

  lemma TrimOptionalTwice(raw: Option<string>)
    ensures TrimOptional(TrimOptional(raw)) == TrimOptional(raw)
  {
    if raw.Some? {
      TrimIdempotent(raw.value);
    }
  }

  lemma JoinStartsWithFirst(lines: seq<string>)
    requires lines != [] && lines[0] != ""
    ensures Join(lines, "\n") != "" && Join(lines, "\n")[0] == lines[0][0]
  {
  }

  lemma StartsInked(s: string)
    requires s != "" && !IsWhitespace(s[0])
    ensures Trim(s) != ""
  {
    BlankTrim(s);
  }

  /** The non-blank lines of an optional note. */
  function NoteTokens(note: Option<string>): seq<string>
  {
    if note.None? then [] else Tokens(note.value)
  }

  function TrimProfileNote(note: Option<string>): Option<string>
  {
    TrimOptional(note)
  }

  lemma TrimProfileNoteTokens(note: Option<string>)
    ensures NoteTokens(TrimProfileNote(note)) == NoteTokens(note)
  {
    if note.Some? {
      TokensTrim(note.value);
      NoTokensExactlyBlank(note.value);
    }
  }

  /** The identity recovered from a note holds exactly its identity lines. */
  method ResolveLegacyImportedIdentity(note: Option<string>) returns (r: Option<string>)
    ensures r.None? <==> Belonging(NoteTokens(note), Identity) == []
    ensures r.Some? ==> Tokens(r.value) == Belonging(NoteTokens(note), Identity)
  {
    hide Tokens;
    hide AllTokens;
    hide TrimOptional;
    TrimProfileNoteTokens(note);
    var trimmed := TrimProfileNote(note);
    if trimmed.None? {
      return None;
    }
    var identity, _ := PartitionProfileNote(trimmed.value);
    r := JoinBlocks(identity);
  }

  /** The advisory part of a note holds exactly its advisory lines. */
  method ResolveAdvisoryProfileNote(note: Option<string>) returns (r: Option<string>)
    ensures r.None? <==> Belonging(NoteTokens(note), Advisory) == []
    ensures r.Some? ==> Tokens(r.value) == Belonging(NoteTokens(note), Advisory)
  {
    hide Tokens;
    hide AllTokens;
    hide TrimOptional;
    TrimProfileNoteTokens(note);
    var trimmed := TrimProfileNote(note);
    if trimmed.None? {
      return None;
    }
    var _, advisory := PartitionProfileNote(trimmed.value);
    r := JoinBlocks(advisory);
  }

  // ------------------------------------------------------------ the section

  /** The section's own heading comes first, and no later line is a governed one. */
  ghost predicate OneGovernedHeading(text: string)
  {
    var lines := Lines(text);
    && lines != [] && lines[0] == HEADING && Governed(lines[0])
    && forall i :: 0 < i < |lines| ==> !Governed(lines[i])
  }

  lemma SectionHeadingIsGoverned()
    ensures Governed(HEADING)
  {
    hide GOVERNED;
    assert HEADING == "" + ("##" + (" " + ("Session Profile" + ("" + "")))) + "";
    assert ToAsciiLower("Session Profile") in GOVERNED by {
      SessionProfileIsGoverned();
    }
    assert Spelling(HEADING, "", "##", " ", "Session Profile", "", "", "");
    GovernedExactly(HEADING);
  }

  lemma SessionProfileIsGoverned()
    ensures ToAsciiLower("Session Profile") in GOVERNED
  {
    assert ToAsciiLower("Session Profile") == "session profile";
    assert GOVERNED[6] == "session profile";
  }

  lemma IntroIsPlain()
    ensures !Governed(INTRO)
  {
    hide IsHeading;
    PlainStart(INTRO);
  }

  lemma FixedLinesAreLines()
    ensures '\n' !in HEADING && '\n' !in INTRO
  {
    assert '\n' !in "Durable preferences and " && '\n' !in "advisory session context ";
    assert '\n' !in "carried into this session:";
  }

  lemma SectionHasOneGovernedHeading(content: string, rendered: seq<string>)
    requires Demoted(content, [], rendered)
    ensures OneGovernedHeading(Join([HEADING, INTRO] + rendered, "\n"))
  {
    hide Governed;
    hide Join;
    hide Lines;
    hide Trim;
    var all := [HEADING, INTRO] + rendered;
    SectionHeadingIsGoverned();
    IntroIsPlain();
    FixedLinesAreLines();
    LinesOfJoin(all);
    var lines := Lines(Join(all, "\n"));
    forall i | 0 < i < |lines| ensures !Governed(lines[i]) {
      GovernedTrim(lines[i], all[i]);
      if i > 1 {
        assert all[i] == rendered[i - 2];
      }
    }
  }

  // ------------------------------------------------- lone carriage returns

  ghost predicate NoneGoverned(lines: seq<string>)
  {
    forall i :: 0 <= i < |lines| ==> !Governed(lines[i])
  }

  /** A line that is no governed heading, but becomes several lines, one of them a governed
      heading, where a carriage return alone ends a line. */
  ghost predicate HidesHeading(line: string)
  {
    !Governed(line) && !NoneGoverned(Tokens(line, '\r'))
  }

  ghost predicate NoneHides(lines: seq<string>)
  {
    forall i :: 0 <= i < |lines| ==> !HidesHeading(lines[i])
  }

  /** The section's heading comes first and no later line is a governed one, also where a
      carriage return alone ends a line. */
  ghost predicate OneGovernedMark(text: string)
  {
    var lines := MarkTokens(text);
    lines != [] && lines[0] == HEADING && NoneGoverned(lines[1..])
  }

  lemma HidesTrim(line: string)
    ensures HidesHeading(line) <==> HidesHeading(Trim(line))
  {
    hide Governed;
    hide Tokens;
    TrimIdempotent(line);
    GovernedTrim(line, Trim(line));
    TokensTrim(line, '\r');
  }

  lemma BlankHidesNothing(line: string)
    requires Trim(line) == ""
    ensures !HidesHeading(line)
  {
    hide Governed;
    HidesTrim(line);
    TokensEmpty('\r');
  }

  lemma NoneHidesCons(line: string, rest: seq<string>)
    ensures NoneHides([line] + rest) <==> !HidesHeading(line) && NoneHides(rest)
  {
    hide HidesHeading;
    var all := [line] + rest;
    if NoneHides(all) {
      assert !HidesHeading(all[0]);
      assert forall i :: 0 <= i < |rest| ==> all[i + 1] == rest[i];
    }
  }

  /** A hidden heading is seen in the trimmed non-blank lines. */
  lemma {:induction false} NoneHidesTokens(lines: seq<string>)
    ensures NoneHides(lines) <==> NoneHides(TokensOf(lines))
  {
    if lines != [] {
      hide HidesHeading;
      hide NoneHides;
      hide Trim;
      var rest := TokensOf(lines[1..]);
      NoneHidesTokens(lines[1..]);
      NoneHidesCons(lines[0], lines[1..]);
      assert lines == [lines[0]] + lines[1..];
      if Trim(lines[0]) == "" {
        BlankHidesNothing(lines[0]);
        assert Token(lines[0]) + rest == rest;
      } else {
        HidesTrim(lines[0]);
        NoneHidesCons(Trim(lines[0]), rest);
      }
    }
  }

  lemma GovernedNamesHaveNoReturn()
    ensures forall k :: 0 <= k < |GOVERNED| ==> '\r' !in GOVERNED[k]
  {
  }

  /** A demoted line is one line wherever it is read. */
  lemma DemotedLineIsOne(line: string)
    requires Governed(line)
    ensures var demoted := PREFIX + DisplayHeading(HeadingText(Trim(line)).value);
      '\r' !in demoted && NoneGoverned(Tokens(demoted, '\r'))
  {
    hide HeadingText;
    hide DisplayHeading;
    var display := DisplayHeading(HeadingText(Trim(line)).value);
    GovernedNamesHaveNoReturn();
    hide GOVERNED;
    var name := ToAsciiLower(display);
    forall i | 0 <= i < |display| ensures display[i] != '\r' {
      assert name[i] == AsciiLower(display[i]) && name[i] in name;
    }
    hide IsHeading;
    assert '\r' !in PREFIX;
    var demoted := PREFIX + display;
    DemotedIsPlain(display);
    TokensOfOne(demoted, '\r');
    TrimIdempotent(demoted);
    GovernedTrim(demoted, Trim(demoted));
  }

  /** Read with carriage returns, the line standing for line `i` shows a governed heading
      exactly when line `i` hides one. */
  lemma DemotedHides(content: string, i: nat, line: string)
    requires i < |Lines(content)| && DemotedLine(content, [], i, line)
    ensures NoneGoverned(Tokens(line, '\r')) <==> !HidesHeading(Lines(content)[i])
  {
    hide Tokens;
    hide Lines;
    hide NormalizedHeading;
    if Governed(Lines(content)[i]) {
      DemotedLineIsOne(Lines(content)[i]);
    }
  }

  lemma {:induction false} NoneGovernedMarks(rendered: seq<string>)
    ensures NoneGoverned(MarkTokensOf(rendered)) <==>
      forall i :: 0 <= i < |rendered| ==> NoneGoverned(Tokens(rendered[i], '\r'))
  {
    hide Governed;
    hide Tokens;
    if rendered != [] {
      NoneGovernedMarks(rendered[1..]);
      NoneGovernedConcat(Tokens(rendered[0], '\r'), MarkTokensOf(rendered[1..]));
      hide NoneGoverned;
      hide MarkTokensOf;
      assert rendered == [rendered[0]] + rendered[1..];
    }
  }

  lemma NoneGovernedConcat(a: seq<string>, b: seq<string>)
    ensures NoneGoverned(a + b) <==> NoneGoverned(a) && NoneGoverned(b)
  {
    hide Governed;
    if NoneGoverned(a + b) {
      assert forall i :: 0 <= i < |a| ==> (a + b)[i] == a[i];
      assert forall i :: 0 <= i < |b| ==> (a + b)[|a| + i] == b[i];
    }
  }

  lemma DemotedMarks(content: string, rendered: seq<string>)
    requires Demoted(content, [], rendered)
    ensures NoneGoverned(MarkTokensOf(rendered)) <==> NoneHides(Tokens(content))
  {
    hide NoneGoverned;
    hide MarkTokensOf;
    hide HidesHeading;
    hide DemotedLine;
    NoneGovernedMarks(rendered);
    TokensOfLines(content);
    NoneHidesTokens(Lines(content));
    hide Tokens;
    hide Lines;
    forall i | 0 <= i < |rendered|
      ensures NoneGoverned(Tokens(rendered[i], '\r')) <==> !HidesHeading(Lines(content)[i])
    {
      DemotedHides(content, i, rendered[i]);
    }
  }

  lemma MarkTokensOfTwo(a: string, b: string, rest: seq<string>)
    requires Tokens(a, '\r') == [a] && Tokens(b, '\r') == [b]
    ensures MarkTokensOf([a, b] + rest) == [a, b] + MarkTokensOf(rest)
  {
    hide Tokens;
    var all := [a, b] + rest;
    assert all[1..] == [b] + rest && all[1..][1..] == rest;
  }

  lemma SelfToken(line: string, c: char)
    requires line != "" && Trimmed(line) && c !in line
    ensures Tokens(line, c) == [line]
  {
    TokensOfOne(line, c);
    TrimOfTrimmed(line);
  }

  lemma FixedTokens()
    ensures Tokens(HEADING, '\r') == [HEADING] && Tokens(INTRO, '\r') == [INTRO]
  {
    hide Tokens;
    FixedLinesArePlain();
    SelfToken(HEADING, '\r');
    SelfToken(INTRO, '\r');
  }

  lemma FixedLinesArePlain()
    ensures '\r' !in HEADING && '\r' !in INTRO && HEADING != "" && INTRO != "" && Trimmed(HEADING) && Trimmed(INTRO)
  {
    var a, b, c := "Durable preferences and ", "advisory session context ", "carried into this session:";
    assert '\r' !in a && '\r' !in b && '\r' !in c;
    assert INTRO == a + b + c;
    assert INTRO[|INTRO| - 1] == c[|c| - 1] == ':';
    assert INTRO[0] == a[0] == 'D';
  }

  /** Where a carriage return alone ends a line, the section still has exactly one governed
      heading if and only if no line of its content hides one. */
  lemma LoneReturnsExactly(content: string, rendered: seq<string>)
    requires Demoted(content, [], rendered)
    ensures OneGovernedMark(Join([HEADING, INTRO] + rendered, "\n")) <==> NoneHides(Tokens(content))
  {
    hide MarkTokens;
    hide MarkTokensOf;
    hide Governed;
    hide NoneHides;
    hide Join;
    hide Tokens;
    FixedLinesAreLines();
    FixedTokens();
    IntroIsPlain();
    hide HEADING;
    hide INTRO;
    var all := [HEADING, INTRO] + rendered;
    DemotedMarks(content, rendered);
    DemotedAreLines(content, rendered);
    MarkTokensOfJoin(all);
    MarkTokensOfTwo(HEADING, INTRO, rendered);
    var marks := MarkTokensOf(rendered);
    assert ([HEADING, INTRO] + marks)[1..] == [INTRO] + marks;
    NoneGovernedConcat([INTRO], marks);
  }

  lemma DemotedAreLines(content: string, rendered: seq<string>)
    requires Demoted(content, [], rendered)
    ensures forall i :: 0 <= i < |rendered| ==> '\n' !in rendered[i]
  {
    hide Governed;
    hide RootKept;
    hide IsHeading;
  }

  /** A note whose second line, after a lone carriage return, would be a governed heading. */
  lemma LoneReturnHidesHeading()
    ensures Belonging(Tokens(LONE_RETURN), Advisory) == [LONE_RETURN] && HidesHeading(LONE_RETURN)
  {
    LoneReturnIsAdvisory();
    hide Belonging;
    LoneReturnTokens();
    HiddenIdentity();
    hide Tokens;
    PlainStart(LONE_RETURN);
    hide HeadingText;
    assert Governed(["x", "## Identity"][1]);
  }

  lemma LoneReturnIsAdvisory()
    ensures Belonging(Tokens(LONE_RETURN), Advisory) == [LONE_RETURN]
  {
    hide Tokens;
    SelfToken(LONE_RETURN, '\n');
    assert ToAsciiLower(LONE_RETURN)[0] == 'x';
    assert Opens(LONE_RETURN) == Advisory;
    assert [LONE_RETURN][..0] == [];
  }

  const LONE_RETURN := "x\r## Identity"

  lemma LoneReturnTokens()
    ensures Tokens(LONE_RETURN, '\r') == ["x", "## Identity"]
  {
    hide Tokens;
    TokensConcat("x", "## Identity", '\r');
    assert LONE_RETURN == "x" + ['\r'] + "## Identity";
    SelfToken("x", '\r');
    SelfToken("## Identity", '\r');
  }

  lemma HiddenIdentity()
    ensures Governed("## Identity")
  {
    assert "## Identity" == "" + ("##" + (" " + ("Identity" + ("" + "")))) + "";
    assert ToAsciiLower("Identity") == "identity" == GOVERNED[9];
    assert Spelling("## Identity", "", "##", " ", "Identity", "", "", "");
    GovernedExactly("## Identity");
  }

  lemma SectionJoin(rendered: seq<string>)
    requires rendered != []
    ensures Join([HEADING, INTRO, Join(rendered, "\n")], "\n") == Join([HEADING, INTRO] + rendered, "\n")
  {
    var tail := Join(rendered, "\n");
    JoinTwo(HEADING, INTRO, [tail]);
    JoinTwo(HEADING, INTRO, rendered);
    assert [HEADING, INTRO, tail] == [HEADING, INTRO] + [tail];
  }

  lemma JoinTwo(a: string, b: string, rest: seq<string>)
    requires rest != []
    ensures Join([a, b] + rest, "\n") == a + "\n" + (b + "\n" + Join(rest, "\n"))
  {
    var all := [a, b] + rest;
    assert all[1..] == [b] + rest && all[1..][1..] == rest;
  }

  method AdvisoryBlocks(note: Option<string>, personalization: Option<Personalization>) returns (blocks: seq<string>)
    ensures AllTokens(blocks) == Belonging(NoteTokens(note), Advisory) + PreferenceTokens(personalization)
    ensures PreferenceTokens(personalization) == [] <==>
      !(personalization.Some? && HasPreference(personalization.value))
  {
    hide PreferenceLines;
    hide Join;
    hide Tokens;
    hide Belonging;
    hide HasPreference;
    hide AllTokens;
    hide Trim;
    blocks := [];
    var advisory := ResolveAdvisoryProfileNote(note);
    NoBlocks();
    if advisory.Some? {
      AllTokensAppend([], advisory.value);
      blocks := blocks + [advisory.value];
      assert [] + [advisory.value] == [advisory.value];
    }
    var preferences := RenderAdvisoryPersonalization(personalization);
    if preferences.Some? {
      AllTokensAppend(blocks, preferences.value);
      NoTokensExactlyBlank(preferences.value);
      blocks := blocks + [preferences.value];
    }
  }

  /** The heading, the introduction, and the lines of a content with demoted headings. */
  ghost predicate SectionOf(text: string, content: string, rendered: seq<string>)
  {
    Demoted(content, [], rendered) && text == Join([HEADING, INTRO] + rendered, "\n")
  }

  /** A section whose content has these non-blank lines. */
  ghost predicate Section(text: string, tokens: seq<string>)
  {
    exists content, rendered :: SectionOf(text, content, rendered) && Tokens(content) == tokens
  }

  /** Whatever the note and the personalization hold, and whatever their line
      endings, the section has its own heading and no other governed one; its lines
      are those of the content, verbatim but for demoted headings; and there is no
      section exactly when there is nothing advisory to say. Where a carriage return alone
      ends a line too, the first of these holds exactly when no line hides a heading. */
  method RenderSessionProfileSection(note: Option<string>, personalization: Option<Personalization>)
    returns (r: Option<string>)
    ensures r.None? <==>
      && Belonging(NoteTokens(note), Advisory) == []
      && !(personalization.Some? && HasPreference(personalization.value))
    ensures r.Some? ==> OneGovernedHeading(r.value)
    ensures r.Some? ==>
      (OneGovernedMark(r.value) <==> NoneHides(Belonging(NoteTokens(note), Advisory) + PreferenceTokens(personalization)))
    ensures r.Some? ==>
      Section(r.value, Belonging(NoteTokens(note), Advisory) + PreferenceTokens(personalization))
  {
    hide Tokens;
    hide Belonging;
    hide HasPreference;
    hide Demoted;
    hide Join;
    hide Trim;
    hide AllTokens;
    hide OneGovernedHeading;
    hide OneGovernedMark;
    hide NoneHides;
    var blocks := AdvisoryBlocks(note, personalization);
    var combined := JoinBlocks(blocks);
    if combined.None? {
      return None;
    }
    var sanitized := DemoteGovernedAdvisoryHeadingsWithAllowedRoots(combined.value, []);
    ghost var rendered :| Demoted(combined.value, [], rendered) && sanitized == Join(rendered, "\n");
    InkedHasLines(combined.value, rendered);
    SectionJoin(rendered);
    SectionHasOneGovernedHeading(combined.value, rendered);
    LoneReturnsExactly(combined.value, rendered);
    assert SectionOf(Join([HEADING, INTRO, sanitized], "\n"), combined.value, rendered);
    r := Some(Join([HEADING, INTRO, sanitized], "\n"));
  }

  lemma NoBlocks()
    ensures AllTokens([]) == []
  {
  }

  lemma InkedHasLines(content: string, rendered: seq<string>)
    requires Trim(content) != "" && Demoted(content, [], rendered)
    ensures rendered != []
  {
    assert Lines(content) != [];
  }
}
