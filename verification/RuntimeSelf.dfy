/** Loading of the runtime-self sources of a workspace under a character budget
    shared by all of them. Contents and canonical path keys are inputs. */
module RuntimeSelf {
  import opened Text
  import opened Windows

  datatype Lane = StandingInstructions | ToolUsagePolicy | SoulGuidance | IdentityContext | UserContext

  datatype Cause = SourceBudget | TotalBudget

  datatype Budget = Budget(maxSource: nat, maxTotal: nat)

  /** A candidate: no file when it cannot be read, no name when it is not text. */
  datatype Source = Source(key: string, name: Option<string>, lane: Lane, file: Option<string>) {

    /** What reading gives: the trimmed text of the file, unless it is blank. */
    function Content(): (r: Option<string>)
      ensures r.Some? ==> r.value != "" && Trim(r.value) == r.value
    {
      if file.None? || Trim(file.value) == "" then None
      else
        TrimIdempotent(file.value);
        Some(Trim(file.value))
    }
  }

  datatype Truncated = Truncated(rendered: string, budgeted: nat)

  // ------------------------------------------------------------ notices

  function SourceLabel(source: Source): string
  {
    if source.name.Some? then source.name.value else "runtime self source"
  }

  function Notice(name: string, cause: Cause): string
  {
    "[runtime self source truncated: " + name + " exceeded the "
    + (if cause.SourceBudget? then "per-source budget" else "remaining total budget") + "]"
  }

  function Dots(n: nat): (s: string)
    ensures |s| == n
    ensures forall i :: 0 <= i < n ==> s[i] == '.'
  {
    seq(n, i => '.')
  }

  /** The notices for one truncation, from the most to the least detailed. */
  function Forms(name: string, cause: Cause): seq<string>
  {
    [Notice(name, cause), "[runtime self truncated: " + name + "]", "[runtime self truncated]", "[truncated]", "..."]
  }

  /** The five texts of a notice, and the label of a source without a name. */
  lemma NoticeTexts(source: Source, name: string, cause: Cause)
    ensures Notice(name, SourceBudget) == "[runtime self source truncated: " + name + " exceeded the per-source budget]"
    ensures Notice(name, TotalBudget) ==
      "[runtime self source truncated: " + name + " exceeded the remaining total budget]"
    ensures Forms(name, cause)[1..] ==
      ["[runtime self truncated: " + name + "]", "[runtime self truncated]", "[truncated]", "..."]
    ensures source.name.None? ==> SourceLabel(source) == "runtime self source"
    ensures source.name.Some? ==> SourceLabel(source) == source.name.value
  {
    var head := "[runtime self source truncated: " + name;
    assert " exceeded the " + "per-source budget" + "]" == " exceeded the per-source budget]";
    assert " exceeded the " + "remaining total budget" + "]" == " exceeded the remaining total budget]";
    assert head + (" exceeded the " + "per-source budget" + "]") == Notice(name, SourceBudget);
    assert head + (" exceeded the " + "remaining total budget" + "]") == Notice(name, TotalBudget);
  }

  /** The most detailed form that fits, or dots when none does. */
  ghost predicate BestNotice(name: string, cause: Cause, limit: nat, r: string)
  {
    || (exists k :: 0 <= k < |Forms(name, cause)| && r == Forms(name, cause)[k] && |r| <= limit
                    && forall j :: 0 <= j < k ==> |Forms(name, cause)[j]| > limit)
    || (r == Dots(limit) && forall j :: 0 <= j < |Forms(name, cause)| ==> |Forms(name, cause)[j]| > limit)
  }

  function CompactNotice(name: string, cause: Cause, limit: nat): string
  {
    var forms := Forms(name, cause);
    if |forms[0]| <= limit then forms[0]
    else if |forms[1]| <= limit then forms[1]
    else if |forms[2]| <= limit then forms[2]
    else if |forms[3]| <= limit then forms[3]
    else if |forms[4]| <= limit then forms[4]
    else Dots(limit)
  }

  lemma CompactNoticeIsBest(name: string, cause: Cause, limit: nat)
    ensures BestNotice(name, cause, limit, CompactNotice(name, cause, limit))
    ensures |CompactNotice(name, cause, limit)| <= limit
  {
    hide Notice;
    var forms := Forms(name, cause);
    var k := if |forms[0]| <= limit then 0 else if |forms[1]| <= limit then 1 else if |forms[2]| <= limit then 2
      else if |forms[3]| <= limit then 3 else 4;
    assert forall j :: 0 <= j < k ==> |forms[j]| > limit;
    if |forms[k]| <= limit {
      assert CompactNotice(name, cause, limit) == forms[k];
    }
  }

  // ------------------------------------------------------------ truncation

  function CauseOf(remaining: nat, budget: Budget): Cause
  {
    if remaining < budget.maxSource then TotalBudget else SourceBudget
  }

  function Truncate(name: string, content: string, remaining: nat, budget: Budget): Truncated
  {
    if remaining == 0 then Truncated(Notice(name, TotalBudget), 0)
    else
      var limit := Min(budget.maxSource, remaining);
      if |content| <= limit then Truncated(content, |content|)
      else
        var cause := CauseOf(remaining, budget);
        var notice := Notice(name, cause);
        if limit < |notice| + 2 + 1 then Truncated(CompactNotice(name, cause, limit), limit)
        else Truncated(content[..limit - |notice| - 2] + "\n\n" + notice, limit)
  }

  /** What may stand for a source that does not fit. */
  ghost predicate CutShort(name: string, content: string, remaining: nat, budget: Budget, r: string)
  {
    if budget.maxSource <= remaining then CutAt(name, content, SourceBudget, budget.maxSource, r)
    else CutAt(name, content, TotalBudget, remaining, r)
  }

  ghost predicate CutAt(name: string, content: string, cause: Cause, limit: nat, r: string)
  {
    || BestNotice(name, cause, limit, r)
    || (|r| == limit && exists k :: 0 < k < |content| && r == content[..k] + "\n\n" + Notice(name, cause))
  }

  /** Within the budget: a source that fits is verbatim, any other is a non-empty
      prefix with the notice, filling the limit, or the best notice alone. Nothing
      rendered exceeds what is charged, and nothing charged exceeds what is left. */
  lemma TruncateWithinBudget(name: string, content: string, remaining: nat, budget: Budget)
    requires remaining > 0
    ensures var t := Truncate(name, content, remaining, budget);
      var limit := Min(budget.maxSource, remaining);
      && |t.rendered| <= t.budgeted == Min(|content|, limit)
      && (t.rendered == content <==> |content| <= limit)
      && (|content| > limit ==> CutShort(name, content, remaining, budget, t.rendered))
  {
    hide Notice;
    hide BestNotice;
    hide CompactNotice;
    var limit := Min(budget.maxSource, remaining);
    var cause := CauseOf(remaining, budget);
    CompactNoticeIsBest(name, cause, limit);
    if |content| > limit >= |Notice(name, cause)| + 3 {
      var k := limit - |Notice(name, cause)| - 2;
      var r := content[..k] + "\n\n" + Notice(name, cause);
      assert Truncate(name, content, remaining, budget).rendered == r && |r| == limit;
    }
  }

  // ------------------------------------------------------------ loading

  datatype Entry = Entry(source: Source, rendered: string, budgeted: nat)

  datatype State = State(entries: seq<Entry>, loaded: set<string>, remaining: nat)

  function Start(budget: Budget): State
  {
    State([], {}, budget.maxTotal)
  }

  /** What a source becomes with so much of the budget left. */
  function EntryFor(source: Source, left: nat, budget: Budget): Entry
    requires source.Content().Some?
  {
    var t := Truncate(SourceLabel(source), source.Content().value, left, budget);
    Entry(source, t.rendered, t.budgeted)
  }

  function Ingested(st: State, budget: Budget, source: Source): State
    requires source.Content().Some?
  {
    if source.key in st.loaded then st
    else
      var e := EntryFor(source, st.remaining, budget);
      State(st.entries + [e], st.loaded + {source.key}, if e.budgeted <= st.remaining then st.remaining - e.budgeted else 0)
  }

  predicate Stops(st: State, source: Source)
  {
    source.Content().Some? && st.remaining == 0 && source.key !in st.loaded
  }

  function Loaded(sources: seq<Source>, budget: Budget, st: State): State
  {
    if sources == [] then st
    else if sources[0].Content().None? then Loaded(sources[1..], budget, st)
    else if Stops(st, sources[0]) then Ingested(st, budget, sources[0])
    else Loaded(sources[1..], budget, Ingested(st, budget, sources[0]))
  }

  // ------------------------------------------------------------ the reference

  /** The readable sources, each canonical path once, at its first occurrence. */
  function FirstReadable(sources: seq<Source>, known: set<string>): (w: seq<Source>)
    ensures Readable(w)
    ensures forall i :: 0 <= i < |w| ==> w[i].key !in known
    ensures forall i, j :: 0 <= i < j < |w| ==> w[i].key != w[j].key
  {
    if sources == [] then []
    else if sources[0].Content().None? || sources[0].key in known then FirstReadable(sources[1..], known)
    else [sources[0]] + FirstReadable(sources[1..], known + {sources[0].key})
  }

  predicate Readable(w: seq<Source>)
  {
    forall i :: 0 <= i < |w| ==> w[i].Content().Some?
  }

  /** The characters the sources ask for, each within the budget of one source. */
  function Demand(w: seq<Source>, budget: Budget): nat
    requires Readable(w)
  {
    if w == [] then 0
    else Demand(w[..|w| - 1], budget) + Min(|w[|w| - 1].Content().value|, budget.maxSource)
  }

  /** What is left of the total budget before source `i`. */
  function Left(w: seq<Source>, budget: Budget, i: nat): nat
    requires Readable(w) && i <= |w|
  {
    budget.maxTotal - Min(budget.maxTotal, Demand(w[..i], budget))
  }

  /** How many sources come before the total budget is used up. */
  function Room(w: seq<Source>, budget: Budget): (k: nat)
    requires Readable(w)
    ensures k <= |w|
  {
    if w == [] then 0
    else
      var n := |w| - 1;
      var k := Room(w[..n], budget);
      if k < n then k else if Left(w, budget, n) > 0 then |w| else n
  }

  function Rendered(entries: seq<Entry>): nat
  {
    if entries == [] then 0 else Rendered(entries[..|entries| - 1]) + |entries[|entries| - 1].rendered|
  }

  /** A source is shown when it is the first one or something is left for the one before it. */
  predicate IsShown(w: seq<Source>, budget: Budget, i: nat)
    requires Readable(w) && i < |w|
  {
    i == 0 || Left(w, budget, i - 1) > 0
  }

  /** The entries are those of the first sources, each made with what the sources
      before it have left. */
  ghost predicate ShownAs(entries: seq<Entry>, w: seq<Source>, budget: Budget)
    requires Readable(w)
  {
    && |entries| <= |w|
    && (forall i :: 0 <= i < |w| ==> (i < |entries| <==> IsShown(w, budget, i)))
    && (forall i :: 0 <= i < |entries| ==> entries[i] == EntryFor(w[i], Left(w, budget, i), budget))
  }

  // ------------------------------------------------------------ what is left

  lemma DemandStep(w: seq<Source>, budget: Budget, i: nat)
    requires Readable(w) && i < |w|
    ensures Demand(w[..i + 1], budget) == Demand(w[..i], budget) + Min(|w[i].Content().value|, budget.maxSource)
  {
    assert w[..i + 1][..i] == w[..i];
  }

  lemma {:induction false} DemandGrows(w: seq<Source>, budget: Budget, i: nat, j: nat)
    requires Readable(w) && i <= j <= |w|
    ensures Demand(w[..i], budget) <= Demand(w[..j], budget)
    decreases j
  {
    if i < j {
      DemandGrows(w, budget, i, j - 1);
      DemandStep(w, budget, j - 1);
    }
  }

  /** A source takes its demand or all that is left, whichever is less. */
  lemma ChargeIsDemand(w: seq<Source>, budget: Budget, i: nat)
    requires Readable(w) && i < |w|
    ensures var e := EntryFor(w[i], Left(w, budget, i), budget);
      && e.budgeted == Left(w, budget, i) - Left(w, budget, i + 1)
      && (Left(w, budget, i) > 0 ==> |e.rendered| <= e.budgeted)
  {
    DemandStep(w, budget, i);
    var left := Left(w, budget, i);
    if left > 0 {
      TruncateWithinBudget(SourceLabel(w[i]), w[i].Content().value, left, budget);
    }
    hide Truncate;
    hide Demand;
  }

  lemma LeftShrinks(w: seq<Source>, budget: Budget, i: nat, j: nat)
    requires Readable(w) && i <= j <= |w|
    ensures Left(w, budget, j) <= Left(w, budget, i) <= budget.maxTotal
  {
    DemandGrows(w, budget, i, j);
  }

  lemma {:induction false} RoomIsFirstEmpty(w: seq<Source>, budget: Budget)
    requires Readable(w)
    ensures var k := Room(w, budget);
      && (forall i :: 0 <= i < k ==> Left(w, budget, i) > 0)
      && (k < |w| ==> Left(w, budget, k) == 0)
  {
    hide Source.Content;
    hide Demand;
    if w != [] {
      var n := |w| - 1;
      RoomIsFirstEmpty(w[..n], budget);
      forall i | 0 <= i <= n ensures Left(w[..n], budget, i) == Left(w, budget, i) {
        assert w[..n][..i] == w[..i];
      }
      hide Left;
    }
  }

  /** The budget is used up before the last source exactly when the sources before
      it ask for all of it. */
  lemma RoomExactly(w: seq<Source>, budget: Budget)
    requires Readable(w)
    ensures Room(w, budget) < |w| <==> w != [] && Demand(w[..|w| - 1], budget) >= budget.maxTotal
  {
    hide Demand;
    hide Room;
    RoomIsFirstEmpty(w, budget);
    var k := Room(w, budget);
    if k < |w| {
      LeftShrinks(w, budget, k, |w| - 1);
    } else if w != [] {
      assert Left(w, budget, |w| - 1) > 0;
    }
  }

  // ------------------------------------------------------------ loading refines the reference

  /** Where the loop is: the entries so far are those of the first sources. */
  ghost predicate Reached(st: State, w: seq<Source>, budget: Budget)
    requires Readable(w)
  {
    && |st.entries| <= |w|
    && st.remaining == Left(w, budget, |st.entries|)
    && (forall i :: 0 <= i < |st.entries| ==> Left(w, budget, i) > 0)
    && (forall i :: 0 <= i < |st.entries| ==> st.entries[i] == EntryFor(w[i], Left(w, budget, i), budget))
  }

  /** A new source with something left is the next one of the reference. */
  lemma IngestReaches(st: State, w: seq<Source>, budget: Budget)
    requires Readable(w) && Reached(st, w, budget) && |st.entries| < |w|
    requires w[|st.entries|].key !in st.loaded && st.remaining > 0
    ensures Reached(Ingested(st, budget, w[|st.entries|]), w, budget)
  {
    hide EntryFor;
    hide Left;
    hide Source.Content;
    ChargeIsDemand(w, budget, |st.entries|);
  }

  /** With nothing left one more source is entered, as a notice, and loading stops. */
  lemma StopShows(st: State, w: seq<Source>, budget: Budget)
    requires Readable(w) && Reached(st, w, budget) && |st.entries| < |w|
    requires w[|st.entries|].key !in st.loaded && st.remaining == 0
    ensures ShownAs(Ingested(st, budget, w[|st.entries|]).entries, w, budget)
  {
    hide EntryFor;
    hide Left;
    hide IsShown;
    hide Source.Content;
    ShownUpTo(w, budget, |st.entries|);
  }

  /** The sources up to the first one with nothing left are shown. */
  lemma ShownUpTo(w: seq<Source>, budget: Budget, n: nat)
    requires Readable(w) && n < |w| && Left(w, budget, n) == 0
    requires forall i :: 0 <= i < n ==> Left(w, budget, i) > 0
    ensures forall i :: 0 <= i < |w| ==> (i <= n <==> IsShown(w, budget, i))
  {
    hide Left;
    forall i | 0 <= i < |w| ensures i <= n <==> IsShown(w, budget, i) {
      if i > n {
        LeftShrinks(w, budget, n, i - 1);
      }
    }
  }

  lemma ReachedEnd(st: State, w: seq<Source>, budget: Budget)
    requires Readable(w) && Reached(st, w, budget) && |st.entries| == |w|
    ensures ShownAs(st.entries, w, budget)
  {
    hide Truncate;
    hide Left;
  }

  lemma {:induction false} LoadFrom(sources: seq<Source>, budget: Budget, st: State, w: seq<Source>)
    requires Readable(w) && Reached(st, w, budget)
    requires w[|st.entries|..] == FirstReadable(sources, st.loaded)
    ensures ShownAs(Loaded(sources, budget, st).entries, w, budget)
  {
    hide Truncate;
    hide Reached;
    hide ShownAs;
    var n := |st.entries|;
    assert n <= |w| by {
      ReachedBound(st, w, budget);
    }
    if sources == [] {
      ReachedEnd(st, w, budget);
    } else if sources[0].Content().None? || sources[0].key in st.loaded {
      LoadFrom(sources[1..], budget, st, w);
    } else {
      assert w[n] == w[n..][0] == sources[0];
      var next := Ingested(st, budget, sources[0]);
      if st.remaining == 0 {
        StopShows(st, w, budget);
      } else {
        IngestReaches(st, w, budget);
        assert w[n + 1..] == w[n..][1..] == FirstReadable(sources[1..], next.loaded);
        LoadFrom(sources[1..], budget, next, w);
      }
    }
  }

  lemma ReachedBound(st: State, w: seq<Source>, budget: Budget)
    requires Readable(w) && Reached(st, w, budget)
    ensures |st.entries| <= |w|
  {
  }

  /** Every load is determined by the sources alone: which are shown, and what each
      becomes. */
  lemma LoadExactly(sources: seq<Source>, budget: Budget)
    ensures ShownAs(Loaded(sources, budget, Start(budget)).entries, FirstReadable(sources, {}), budget)
  {
    var w := FirstReadable(sources, {});
    assert w[0..] == w && w[..0] == [];
    assert Reached(Start(budget), w, budget);
    hide FirstReadable;
    LoadFrom(sources, budget, Start(budget), w);
  }

  // ------------------------------------------------------------ verbatim, and within budget

  /** A shown source is verbatim exactly when it fits both budgets, after what the
      sources before it ask for; or when it is the notice itself and nothing is left. */
  lemma VerbatimExactly(sources: seq<Source>, budget: Budget, i: nat)
    requires i < |FirstReadable(sources, {})| && IsShown(FirstReadable(sources, {}), budget, i)
    ensures var entries := Loaded(sources, budget, Start(budget)).entries;
      var w := FirstReadable(sources, {});
      var content := w[i].Content().value; var asked := Demand(w[..i], budget);
      && i < |entries| && entries[i].source == w[i]
      && (entries[i].rendered == content <==>
          || (|content| <= budget.maxSource && asked + |content| <= budget.maxTotal)
          || (asked >= budget.maxTotal && content == Notice(SourceLabel(w[i]), TotalBudget)))
  {
    hide Demand;
    hide Notice;
    hide Loaded;
    var w := FirstReadable(sources, {});
    LoadExactly(sources, budget);
    hide FirstReadable;
    assert w[i].Content().value != "";
    if Left(w, budget, i) > 0 {
      TruncateWithinBudget(SourceLabel(w[i]), w[i].Content().value, Left(w, budget, i), budget);
    }
  }

  /** A source that fits is shown, and verbatim, whatever comes before it. */
  lemma FittingIsVerbatim(sources: seq<Source>, budget: Budget, i: nat)
    requires i < |FirstReadable(sources, {})|
    requires var w := FirstReadable(sources, {});
      |w[i].Content().value| <= budget.maxSource && Demand(w[..i], budget) + |w[i].Content().value| <= budget.maxTotal
    ensures var entries := Loaded(sources, budget, Start(budget)).entries;
      i < |entries| && entries[i].source == FirstReadable(sources, {})[i] && entries[i].rendered == entries[i].source.Content().value
  {
    hide Demand;
    hide Loaded;
    hide FirstReadable;
    var w := FirstReadable(sources, {});
    assert w[i].Content().value != "";
    if i > 0 {
      DemandGrows(w, budget, i - 1, i);
    }
    assert IsShown(w, budget, i);
    VerbatimExactly(sources, budget, i);
  }

  /** What a source is charged beyond what it shows: only a compact notice can be
      shorter than its limit. */
  function Slack(source: Source, left: nat, budget: Budget): nat
    requires source.Content().Some?
  {
    var limit := Min(budget.maxSource, left);
    var cause := CauseOf(left, budget);
    if |source.Content().value| <= limit || limit >= |Notice(SourceLabel(source), cause)| + 3 then 0
    else
      CompactNoticeIsBest(SourceLabel(source), cause, limit);
      limit - |CompactNotice(SourceLabel(source), cause, limit)|
  }

  function TotalSlack(w: seq<Source>, budget: Budget, k: nat): nat
    requires Readable(w) && k <= |w|
  {
    if k == 0 then 0 else TotalSlack(w, budget, k - 1) + Slack(w[k - 1], Left(w, budget, k - 1), budget)
  }

  lemma RenderedLength(source: Source, left: nat, budget: Budget)
    requires source.Content().Some? && left > 0
    ensures var e := EntryFor(source, left, budget); |e.rendered| + Slack(source, left, budget) == e.budgeted
  {
    hide Notice;
    hide CompactNotice;
    CompactNoticeIsBest(SourceLabel(source), CauseOf(left, budget), Min(budget.maxSource, left));
  }

  lemma RenderedStep(entries: seq<Entry>, k: nat)
    requires 0 < k <= |entries|
    ensures Rendered(entries[..k]) == Rendered(entries[..k - 1]) + |entries[k - 1].rendered|
  {
    assert entries[..k][..k - 1] == entries[..k - 1];
  }

  /** While something is left, what is shown and the slack are what is used up. */
  lemma {:induction false} RenderedSoFar(entries: seq<Entry>, w: seq<Source>, budget: Budget, k: nat)
    requires Readable(w) && ShownAs(entries, w, budget) && k <= |entries|
    requires forall i :: 0 <= i < k ==> Left(w, budget, i) > 0
    ensures Rendered(entries[..k]) + TotalSlack(w, budget, k) + Left(w, budget, k) == budget.maxTotal
  {
    hide Truncate;
    hide Slack;
    if k == 0 {
      assert w[..0] == [];
    } else {
      hide Left;
      RenderedSoFar(entries, w, budget, k - 1);
      assert entries[k - 1] == EntryFor(w[k - 1], Left(w, budget, k - 1), budget);
      hide ShownAs;
      hide EntryFor;
      RenderedStep(entries, k);
      hide Rendered;
      RenderedLength(w[k - 1], Left(w, budget, k - 1), budget);
      ChargeIsDemand(w, budget, k - 1);
    }
  }

  /** The characters of a load, from the sources alone: within the total budget, or,
      when the budget is used up before the last source, the total budget less the
      slack plus one notice. */
  lemma RenderedExactly(entries: seq<Entry>, w: seq<Source>, budget: Budget)
    requires Readable(w) && ShownAs(entries, w, budget)
    ensures var k := Room(w, budget);
      && |entries| == Min(|w|, k + 1)
      && (k == |w| ==> Rendered(entries) + TotalSlack(w, budget, k) + Left(w, budget, k) == budget.maxTotal)
      && (k < |w| ==> Rendered(entries) + TotalSlack(w, budget, k)
                      == budget.maxTotal + |Notice(SourceLabel(w[k]), TotalBudget)|)
  {
    hide Room;
    hide Left;
    hide Notice;
    hide TotalSlack;
    hide Source.Content;
    var k := Room(w, budget);
    RoomIsFirstEmpty(w, budget);
    ShownCount(entries, w, budget, k);
    RenderedSoFar(entries, w, budget, k);
    if k < |w| {
      FinalNotice(entries, w, budget, k);
      RenderedStep(entries, k + 1);
    }
    hide ShownAs;
    hide Rendered;
    assert entries[..|entries|] == entries;
  }

  /** The source shown with nothing left is its notice. */
  lemma FinalNotice(entries: seq<Entry>, w: seq<Source>, budget: Budget, k: nat)
    requires Readable(w) && ShownAs(entries, w, budget) && k < |entries| && Left(w, budget, k) == 0
    ensures entries[k].rendered == Notice(SourceLabel(w[k]), TotalBudget)
  {
    hide Notice;
    hide Left;
    hide Source.Content;
  }

  lemma ShownCount(entries: seq<Entry>, w: seq<Source>, budget: Budget, k: nat)
    requires Readable(w) && ShownAs(entries, w, budget) && k <= |w|
    requires forall i :: 0 <= i < k ==> Left(w, budget, i) > 0
    requires k < |w| ==> Left(w, budget, k) == 0
    ensures |entries| == Min(|w|, k + 1)
  {
    hide Truncate;
    hide Left;
    if k < |w| {
      assert IsShown(w, budget, k);
      assert k + 1 < |w| ==> !IsShown(w, budget, k + 1);
    } else if k > 0 {
      assert IsShown(w, budget, k - 1);
    }
  }

  /** A load stays within the total budget if and only if the sources before the last
      one ask for less than all of it, or the slack makes up for the final notice. */
  lemma WithinBudgetExactly(sources: seq<Source>, budget: Budget)
    ensures var w := FirstReadable(sources, {}); var k := Room(w, budget);
      Rendered(Loaded(sources, budget, Start(budget)).entries) <= budget.maxTotal <==>
      || w == [] || Demand(w[..|w| - 1], budget) < budget.maxTotal
      || TotalSlack(w, budget, k) >= |Notice(SourceLabel(w[k]), TotalBudget)|
  {
    hide Room;
    hide Demand;
    hide Notice;
    hide TotalSlack;
    hide Loaded;
    hide FirstReadable;
    hide ShownAs;
    var w := FirstReadable(sources, {});
    LoadExactly(sources, budget);
    RenderedExactly(Loaded(sources, budget, Start(budget)).entries, w, budget);
    RoomExactly(w, budget);
  }

  ghost predicate EachPathOnce(entries: seq<Entry>)
  {
    forall i, j :: 0 <= i < j < |entries| ==> entries[i].source.key != entries[j].source.key
  }

  /** An entry is the notice that ends the list, or it is verbatim, a prefix with a
      notice, or a notice alone, within what is left for it. */
  ghost predicate RightEntry(e: Entry, last: bool, left: nat, budget: Budget)
  {
    && e.source.Content().Some?
    && (var limit := Min(budget.maxSource, left);
        var content := e.source.Content().value;
        if left == 0 then last && e.rendered == Notice(SourceLabel(e.source), TotalBudget)
        else
          && |e.rendered| <= e.budgeted <= limit
          && (e.rendered == content <==> |content| <= limit)
          && (|content| > limit ==> CutShort(SourceLabel(e.source), content, left, budget, e.rendered)))
  }

  /** For every list of sources: each canonical path at most once, each entry of the
      right form, the total budget exceeded by at most one notice, and no readable
      source left out unless the budget is used up. */
  lemma LoadKeepsBudget(sources: seq<Source>, budget: Budget)
    ensures var w := FirstReadable(sources, {}); var entries := Loaded(sources, budget, Start(budget)).entries;
      && |entries| <= |w| && EachPathOnce(entries)
      && (forall i :: 0 <= i < |entries| ==>
            entries[i].source == w[i] && RightEntry(entries[i], i == |entries| - 1, Left(w, budget, i), budget))
      && (|entries| < |w| ==> entries != [] && Left(w, budget, |entries| - 1) == 0)
      && (Rendered(entries) <= budget.maxTotal || (entries != [] &&
            Rendered(entries) <= budget.maxTotal + |Notice(SourceLabel(w[|entries| - 1]), TotalBudget)|))
  {
    hide Notice;
    hide Left;
    hide Source.Content;
    hide Truncate;
    hide Room;
    hide TotalSlack;
    hide Loaded;
    var w, entries := FirstReadable(sources, {}), Loaded(sources, budget, Start(budget)).entries;
    LoadExactly(sources, budget);
    hide FirstReadable;
    RenderedExactly(entries, w, budget);
    forall i | 0 <= i < |entries|
      ensures entries[i].source == w[i] && RightEntry(entries[i], i == |entries| - 1, Left(w, budget, i), budget)
    {
      EntryIsRight(entries, w, budget, i);
    }
    hide ShownAs;
    hide RightEntry;
    RoomIsFirstEmpty(w, budget);
  }

  lemma EntryIsRight(entries: seq<Entry>, w: seq<Source>, budget: Budget, i: nat)
    requires Readable(w) && ShownAs(entries, w, budget) && i < |entries|
    ensures entries[i].source == w[i] && RightEntry(entries[i], i == |entries| - 1, Left(w, budget, i), budget)
  {
    hide Notice;
    hide Demand;
    hide CutShort;
    var left := Left(w, budget, i);
    if left > 0 {
      TruncateWithinBudget(SourceLabel(w[i]), w[i].Content().value, left, budget);
    } else if i + 1 < |w| {
      assert !IsShown(w, budget, i + 1);
    }
  }

  /** A source after one that uses up the budget exceeds it by its notice. */
  lemma NoticeExceedsBudget(first: Source, second: Source, budget: Budget)
    requires first.Content().Some? && second.Content().Some? && first.key != second.key
    requires |first.Content().value| == budget.maxTotal <= budget.maxSource
    ensures var entries := Loaded([first, second], budget, Start(budget)).entries;
      && |entries| == 2
      && Rendered(entries) == budget.maxTotal + |Notice(SourceLabel(second), TotalBudget)| > budget.maxTotal
  {
    var start := Start(budget);
    var one := Ingested(start, budget, first);
    var two := Ingested(one, budget, second);
    assert [first, second][1..] == [second];
    assert Loaded([second], budget, one) == two;
    assert Loaded([first, second], budget, start) == two;
    assert two.entries[..1] == one.entries && one.entries[..0] == [];
    assert one.entries[0].rendered == first.Content().value && one.remaining == 0;
    assert Rendered(one.entries) == budget.maxTotal;
  }

  // ------------------------------------------------------------ the loader

  function LaneTexts(entries: seq<Entry>, lane: Lane): seq<string>
  {
    if entries == [] then []
    else
      var n := |entries| - 1;
      LaneTexts(entries[..n], lane) + (if entries[n].source.lane == lane then [entries[n].rendered] else [])
  }

  lemma LaneTextsAppend(entries: seq<Entry>, e: Entry, lane: Lane)
    ensures LaneTexts(entries + [e], lane) == LaneTexts(entries, lane) + (if e.source.lane == lane then [e.rendered] else [])
  {
    assert (entries + [e])[..|entries|] == entries;
  }

  class Loader {
    const budget: Budget
    var standingInstructions: seq<string>
    var toolUsagePolicy: seq<string>
    var soulGuidance: seq<string>
    var identityContext: seq<string>
    var userContext: seq<string>
    var loadedPaths: set<string>
    var remaining: nat
    ghost var entries: seq<Entry>

    /** Each lane holds the texts of its entries, in order. */
    ghost predicate Valid()
      reads this
    {
      && standingInstructions == LaneTexts(entries, StandingInstructions)
      && toolUsagePolicy == LaneTexts(entries, ToolUsagePolicy)
      && soulGuidance == LaneTexts(entries, SoulGuidance)
      && identityContext == LaneTexts(entries, IdentityContext)
      && userContext == LaneTexts(entries, UserContext)
    }

    ghost function Model(): State
      reads this
    {
      State(entries, loadedPaths, remaining)
    }

    constructor (budget: Budget)
      ensures Valid() && this.budget == budget && Model() == Start(budget)
    {
      this.budget := budget;
      standingInstructions, toolUsagePolicy, soulGuidance := [], [], [];
      identityContext, userContext := [], [];
      loadedPaths := {};
      remaining := budget.maxTotal;
      entries := [];
    }

    method AppendContent(source: Source, content: string, ghost budgeted: nat)
      requires Valid()
      modifies this
      ensures Valid() && entries == old(entries) + [Entry(source, content, budgeted)]
      ensures loadedPaths == old(loadedPaths) && remaining == old(remaining)
    {
      ghost var e := Entry(source, content, budgeted);
      LaneTextsAppend(entries, e, StandingInstructions);
      LaneTextsAppend(entries, e, ToolUsagePolicy);
      LaneTextsAppend(entries, e, SoulGuidance);
      LaneTextsAppend(entries, e, IdentityContext);
      LaneTextsAppend(entries, e, UserContext);
      entries := entries + [e];
      match source.lane {
        case StandingInstructions => standingInstructions := standingInstructions + [content];
        case ToolUsagePolicy => toolUsagePolicy := toolUsagePolicy + [content];
        case SoulGuidance => soulGuidance := soulGuidance + [content];
        case IdentityContext => identityContext := identityContext + [content];
        case UserContext => userContext := userContext + [content];
      }
    }

    method Ingest(source: Source) returns (appended: bool)
      requires Valid() && source.Content().Some?
      modifies this
      ensures Valid() && Model() == Ingested(old(Model()), budget, source)
      ensures appended <==> source.key !in old(loadedPaths)
    {
      hide Truncate;
      if source.key in loadedPaths {
        return false;
      }
      loadedPaths := loadedPaths + {source.key};
      var truncated := Truncate(SourceLabel(source), source.Content().value, remaining, budget);
      remaining := if truncated.budgeted <= remaining then remaining - truncated.budgeted else 0;
      AppendContent(source, truncated.rendered, truncated.budgeted);
      return true;
    }

    /** Loads the candidates in order, from a fresh loader. */
    method Load(sources: seq<Source>)
      requires Valid() && Model() == Start(budget)
      modifies this
      ensures Valid() && Model() == Loaded(sources, budget, Start(budget))
      ensures ShownAs(entries, FirstReadable(sources, {}), budget)
    {
      hide ShownAs;
      hide FirstReadable;
      hide Truncate;
      hide Ingested;
      LoadExactly(sources, budget);
      var k := 0;
      while k < |sources|
        invariant k <= |sources|
        invariant Valid()
        invariant Loaded(sources, budget, Start(budget)) == Loaded(sources[k..], budget, Model())
      {
        var source := sources[k];
        assert sources[k..][0] == source && sources[k..][1..] == sources[k + 1..];
        k := k + 1;
        if source.Content().Some? {
          var exhausted := remaining == 0;
          var appended := Ingest(source);
          if exhausted && appended {
            break;
          }
        }
      }
    }
  }
}
