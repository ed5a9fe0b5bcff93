# Proofs about the control plane and its text pipelines

This project models the most intricate parts of the assistant runtime and proves
what they promise, for every input, every run and every interleaving.

- **Control plane** (`Turns`, `TurnCalls`, `TopKeys`, `EventPlane`, `EventLanes`, `EventManager`, `ExpiringStore`,
  `Pairing`, `PairingStore`, `Windows`, `Identifiers`): the turn registry with its bounded logs and step-by-step
  pruning, the event manager cut at its atomic operations, leases and one-shot challenges, device pairing cut at
  its lock regions, and its session store. Each protocol is a state machine with invariants over all runs, and each registry is also a class whose
  methods are steps of its machine.
- **Shutdown signal** (`CliShutdown`): the flag, the notifier and the wait loop, in every interleaving.
- **Audit sink** (`AuditWorker`, `Timestamp`): conservation of events through queue, batch and flush, and the
  timestamp of section 6.2.3 of RFC 5424.
- **Label globs** (`Glob`): the compiler from globs to regular expressions, proved against a matcher over path
  segments. The regular expression is a syntax tree with a language semantics.
- **Wrapping** (`Wrapping`): exact termination, width bound, conservation of visible characters, and the greedy
  layout of words.
- **Prompt text** (`LineText`, `AdvisoryPrompt`, `ProfileNote`, `SessionProfile`, `RuntimeSelf`): the partition of
  profile notes, the demotion of governed headings, the session profile section, and the shared character budget
  of runtime-self sources.
- **Secrets** (`SecretRefs`, `Secrets`): the spellings of variable references, their textual form, and the
  canonical form of an environment reference.
- `Text` holds white space, trimming, splitting, joining and string order.

Inputs stand for what lies outside: the clock (`now`), random components, the outcome of persisting, the hash of
a device token, the process environment, the contents of files and the output of commands.

## Where the code does less than one might expect

Each of these is stated as a counterexample together with the exact condition under which the property holds.

- A path that ends in a newline can match a pattern without that newline, because `$` ignores one final newline
  (`Glob.FinalNewlineIsIgnored`, `Glob.PathMatchesExactlySegments`).
- Wrapping does not return when the effective width equals the continuation prefix and text must be continued
  (`Wrapping.NarrowWidthDiverges`, `Wrapping.WrappingHaltsExactly`). The methods of `Wrapping` therefore require
  `Returns`, which is proved to be exactly termination.
- Overlapping `record_event` calls can be recorded out of sequence order
  (`EventPlane.OvertakingHappens`, `EventPlane.InOrderExactly`), and a subscriber then misses an event
  (`EventPlane.SubscriberReceivesAllExactly`).
- Eager purging is visible under a clock that steps back
  (`Leases.SteppedBackClockLosesLease`, `ExpiringStore.AnswerExactly`).
- A timestamp from the year 10000 on is not a TIMESTAMP of RFC 5424, until the 32-bit year wraps: then, in a build
  without overflow checks, some are again, and show an instant long past
  (`Timestamp.WrappedYearIsRead`, `Timestamp.FormatRfc5424Timestamp`).
- The total budget of runtime-self sources can be exceeded by one notice
  (`RuntimeSelf.NoticeExceedsBudget`, `RuntimeSelf.WithinBudgetExactly`).
- A call that asks to connect can make a pairing request for an ask approved in the meantime
  (`Pairing.StaleReadHappens`, `Pairing.StaleRequestExactly`).
- A pairing request can be rejected in memory and approved in the session store
  (`PairingStore.LostApprovalHappens`, `PairingStore.StoreAgreesExactly`).
- A lone carriage return ends no line for `str::lines`, so a heading behind one is not demoted
  (`SessionProfile.LoneReturnHidesHeading`, `SessionProfile.LoneReturnsExactly`).
- An inline secret whose text spells a variable is read back as a reference
  (`SecretRefs.InlineSpellingIsReread`, `SecretRefs.RoundTripExactly`).

## Model

| member | source | states |
|---|---|---|
| Glob.PathMatchesExactlySegments | scripts/sync_github_labels.py:121-157 | for every supported pattern and every path, the compiled regular expression answers what the segment-by-segment matcher answers, or what it answers for the path without one final newline |
| Glob.PathMatchesSegments | scripts/sync_github_labels.py:121-157 | on every path that does not end in a newline the two matchers agree outright |
| Glob.FinalNewlineIsIgnored | scripts/sync_github_labels.py:144-157 | the final-newline allowance is real: pattern `a` accepts the path `a` followed by a newline, which no segment matcher does |
| Glob.CompiledMatchesSegments | scripts/sync_github_labels.py:128-145 | the language of the compiled pattern is the language of the segment matcher, on every text: a middle `**` is zero or more non-empty segments, a final `**` any rest without a newline |
| Glob.SegmentPartsMatch | scripts/sync_github_labels.py:108-118 | a compiled segment accepts exactly the slash-free texts its wildcards match; `*` and `?` never cross a slash |
| Glob.DirectoriesMatch | scripts/sync_github_labels.py:131-136 | `(?:[^/]+/)*` before a tail: nothing is skipped, or one non-empty segment is skipped and the same again |
| Glob.HeadSegmentMatch | scripts/sync_github_labels.py:138-142 | a literal segment before a tail takes the first segment of the path and its slash |
| Glob.DirectoryMatch | scripts/sync_github_labels.py:135 | `[^/]+/` accepts exactly one non-empty slash-free name and its slash |
| Glob.GlobSegmentToRegex | scripts/sync_github_labels.py:108-118 | the loop builds one regular-expression part per character, as the recursive compilation function gives them |
| Glob.GlobPatternToRegex | scripts/sync_github_labels.py:121-145 | an error exactly for the refused patterns, spelled out on the text as for `Glob.SupportedExactly`; otherwise the loop builds the compilation of the pattern segments |
| Glob.ValidateSupportedGlobPattern | scripts/sync_github_labels.py:72-105 | an error exactly for the refused patterns, spelled out on the text as for `Glob.SupportedExactly`; otherwise the normalised pattern. Which error it is: an empty pattern, a double slash, the unsupported constructs, or `**` inside a segment |
| Glob.SupportedExactly | scripts/sync_github_labels.py:47-105 | a pattern is refused if and only if its text has an empty segment, `**` inside a longer segment, a leading `!`, one of the five extended-glob tokens, `[y]` with y non-empty and free of brackets, or `{y,z}` with no brace in y or z |
| Glob.FoundExactly | scripts/sync_github_labels.py:47-69 | the constructs reported are those of the text, each of the eight exactly when the text holds it, in order |
| Glob.SegmentOfSplit | scripts/sync_github_labels.py:90 | splitting at slashes finds exactly the slash-free texts between two slashes or ends |
| Glob.NormalizeRepoPath | scripts/sync_github_labels.py:40-44 | the loop computes the normalised path |
| Glob.NormalizedIsNormal | scripts/sync_github_labels.py:40-44 | a normalised path has no backslash and no leading `./`, and normalising again changes nothing |
| Glob.NormalizedCutsDotSlashes | scripts/sync_github_labels.py:40-44 | the path with its backslashes turned is some number of `./` followed by the normalised path, which starts with no `./` |
| Glob.DoubleSlashHasEmptySegment | scripts/sync_github_labels.py:78-103 | the double-slash check is implied by the check for empty segments |
| Timestamp.FormatRfc5424Timestamp | crates/app/src/context.rs:331-369 | for every 64-bit input, with or without overflow checks, the text is the rendering of its fields; it is a TIMESTAMP of section 6.2.3 of RFC 5424 exactly when the day number, reduced by whole cycles of the 32-bit years, lies in a year from 0 to 9999, and then it decodes to that day and the time of day; with overflow checks, and without them before the instant whose wrapped year is 0, that is exactly before the year 10000, where it is 20 characters long and decodes to the input |
| Timestamp.AsI64Exactly | crates/app/src/context.rs:332 | the cast gives the one signed 64-bit number congruent to its argument modulo 2^64 |
| Timestamp.CivilFromEpoch | crates/app/src/context.rs:332-364 | the loops give the civil date of the reduced day number and the time of day, with zero or negative fields after a negative 64-bit cast; no date exactly when overflow checks meet an overflowing 32-bit year |
| Timestamp.YearOfDay | crates/app/src/context.rs:335-348 | the year loop, with the wrapping or checked 32-bit year |
| Timestamp.MonthOfDay | crates/app/src/context.rs:349-361 | the month loop gives the valid month and day of a day of the year |
| Timestamp.WrappedYearIsRead | crates/app/src/context.rs:331-369 | without overflow checks epoch second 135536078503584000 is printed as a well-formed timestamp of 2023 |
| Timestamp.CountedIsReduced | crates/app/src/context.rs:335-361 | a date counted by the loops is the date of the reduced day number |
| Timestamp.CivilUnique | crates/app/src/context.rs:332-364 | the fields are determined by the seconds, so the printed text is |
| Timestamp.TimestampOrder | crates/app/src/context.rs:331-369 | among well-formed timestamps, string order is the order of the instants, and equal strings are equal instants |
| Timestamp.RenderParse | crates/app/src/context.rs:365-368 | reading the fields of a rendered date gives the date back |
| Timestamp.RenderDecode | crates/app/src/context.rs:365-368 | decoding a rendered date by the closed form gives its epoch second |
| Timestamp.DaysElapsedClosed | crates/app/src/context.rs:337-348 | the running sum of the year loop is whole cycles of the 32-bit years plus the closed-form start of the wrapped year |
| Timestamp.DaysFromCivilSum | crates/app/src/context.rs:337-361 | the era-based closed form is the start of the year plus the months gone by plus the day, for every year |
| Timestamp.YearRange | crates/app/src/context.rs:337-368 | the four-digit years are exactly those of the days from 0000-01-01 to 9999-12-31 |
| Timestamp.OtherYearIsMalformed | crates/app/src/context.rs:365-368 | a year of five or more digits, or with a sign, is never a well-formed timestamp |
| Timestamp.NegativeIsMalformed | crates/app/src/context.rs:332-369 | an input whose 64-bit cast is negative is never rendered as a well-formed timestamp |
| Timestamp.SpellingOrder | crates/app/src/context.rs:365-368 | an earlier date and time is a smaller string, field by field |
| Timestamp.DecodeOrder | crates/app/src/context.rs:331-369 | an earlier date and time decodes to a smaller epoch second |
| Timestamp.MonthStarts | crates/app/src/context.rs:352-361 | the month tables add up to the usual month starts and to the length of the year |
| Timestamp.TimeOfDay | crates/app/src/context.rs:362-364 | hour, minute and second recompose the remainder, with truncating division on negative values |
| Wrapping.WrappingHaltsExactly | crates/app/src/presentation.rs:422-483 | wrapping returns if and only if the effective width exceeds the continuation prefix, or there is nothing to place, or everything fits the first line, or the only segment is one character and the first line has some room |
| Wrapping.WideEnoughHalts | crates/app/src/presentation.rs:442-476 | with room beyond the continuation prefix every layout is finished, by a lexicographic measure over the remaining text and the state of the line |
| Wrapping.StuckNeverHalts | crates/app/src/presentation.rs:460-468 | a continuation line with no room is a fixed point of the loop: it is never left |
| Wrapping.NarrowWidthDiverges | crates/app/src/presentation.rs:429-468 | a concrete input on which the loop never comes to an end |
| Wrapping.FirstLineHalts | crates/app/src/presentation.rs:429-476 | with no room beyond the continuation prefix, wrapping returns exactly when all fits the first line or a lone character overflows it |
| Wrapping.StartedLineHalts | crates/app/src/presentation.rs:443-458 | with no room beyond the continuation prefix, a started line is finished exactly when all of the rest fits on it |
| Wrapping.RenderWrappedSegments | crates/app/src/presentation.rs:422-483 | whenever wrapping returns, the nested loops compute the outcome of the step machine |
| Wrapping.PlaceSegment | crates/app/src/presentation.rs:441-476 | the inner loop runs the step machine until its segment is placed |
| Wrapping.PlaceOnce | crates/app/src/presentation.rs:443-475 | one iteration of the inner loop is one step of the machine, branch by branch |
| Wrapping.TakeFittingPrefix | crates/app/src/presentation.rs:485-503 | the byte offset of the longest prefix within the width, or of one character when none fits |
| Wrapping.FitCountBytes | crates/app/src/presentation.rs:489-496 | the characters counted are exactly those of the prefixes within the width in bytes |
| Wrapping.OutcomeWithinWidth | crates/app/src/presentation.rs:422-503 | every line of every outcome is within the effective width plus the overshoot: nothing when a fresh line, after the prefix and after the continuation, has no room or room for m bytes, otherwise m bytes less that room, if no character has more than m bytes; so at most three bytes, and none for single-byte text |
| Wrapping.OvershootIsReached | crates/app/src/presentation.rs:498-499 | the bound is reached by a four-byte character on a line one byte wide |
| Wrapping.BoundedStep | crates/app/src/presentation.rs:443-475 | each iteration keeps the bound on the finished lines and on the line in progress |
| Wrapping.OutcomeKeepsInk | crates/app/src/presentation.rs:429-482 | with blank separator and continuation, the visible characters of the lines are those of the prefix followed by those of the segments: nothing lost, repeated or moved |
| Wrapping.InkStep | crates/app/src/presentation.rs:443-475 | each iteration keeps the visible characters of finished lines, current line and rest, in order |
| Wrapping.SplitWhitespaceInk | crates/app/src/presentation.rs:288-291 | splitting at white space keeps exactly the visible characters and yields no empty segment |
| Wrapping.RenderWrappedTextLineWithContinuation | crates/app/src/presentation.rs:282-293 | keeps all visible characters; every line within the effective width plus the overshoot of a four-byte character, exactly within it for single-byte text; one line, the prefix and the words joined by one space, whenever that fits; if no word is too wide for the line it may have to start, the words are laid out greedily, joined by one space, a line ending only before a word that does not fit on it after one space; then, with a blank continuation and a prefix that is empty or ends in white space, the words of the lines are those of the prefix followed by those of the value |
| Wrapping.OutcomeIsGreedy | crates/app/src/presentation.rs:422-483 | if no segment is too wide for the line it may have to start, every outcome has the segments whole and in order, each line its lead and its segments joined by the separator, and ends a line only before a segment that does not fit; a prefix that leaves no room is a line of its own, or none if blank |
| Wrapping.OutcomeIsOneLine | crates/app/src/presentation.rs:422-483 | what fits on one line with its prefix is one line |
| Wrapping.WrappedWords | crates/app/src/presentation.rs:282-293 | splitting a greedy layout of words at white space gives the words of the prefix and then those of the text |
| Wrapping.SplitWhitespaceJoin | crates/app/src/presentation.rs:288-292 | words joined by one space split into the same words |
| Wrapping.Utf8WidthIsLeast | crates/app/src/presentation.rs:490-499 | a character takes the fewest bytes of UTF-8 that can hold its scalar value |
| Identifiers.IdDistinct | crates/app/src/control_plane.rs:203-205 | two identifiers with one prefix are equal only if their sequence numbers are |
| Identifiers.IdTrimmed | crates/app/src/control_plane.rs:1260-1276 | an identifier is not blank and survives trimming |
| Identifiers.Hex16RoundTrip | crates/app/src/control_plane.rs:203-205 | the zero-padded hexadecimal number can be read back |
| Windows.LastAppend | crates/app/src/control_plane.rs:369-388 | appending to a bounded window and cutting it again is cutting the whole log |
| TopKeys.TopInsert | crates/app/src/control_plane.rs:390-420 | keeping the greatest n after every insertion keeps what selecting once from the whole history would keep |
| TopKeys.TopUnique | crates/app/src/control_plane.rs:390-420 | the n greatest keys of a set are unique |
| TopKeys.LastIsTop | crates/app/src/control_plane.rs:411-419 | the last n of an ascending sequence are its n greatest elements |
| TopKeys.SortAscending | crates/app/src/control_plane.rs:411-416 | sorting distinct keys gives an ascending sequence of the same elements |
| Turns.RetainedTurnsAreLastCompleted | crates/app/src/control_plane.rs:270-345 | in every run and for any clock, the retained terminal turns are the last 256 of the sorted list of all completions ever, and no turn without a terminal event has been pruned; told by the calls alone in `TurnCalls` |
| Turns.RetainedEventsAreLogSuffix | crates/app/src/control_plane.rs:262-388 | in every run a retained turn’s window is the last 256 events of its full log, numbered without gaps; the event count is the length of the log; an event is terminal exactly when it is the last one of a terminal turn |
| Turns.LogsGrow | crates/app/src/control_plane.rs:347-388 | in every run events are only appended to a turn’s log, and an ended log never changes |
| Turns.RunInv | crates/app/src/control_plane.rs:201-430 | every state of every run satisfies the log, completion and retention invariants |
| Turns.StepInv | crates/app/src/control_plane.rs:201-430 | every call keeps the invariants |
| Turns.IssueKeepsInv | crates/app/src/control_plane.rs:201-229 | issuing a turn keeps the invariants |
| Turns.EventKeepsInv | crates/app/src/control_plane.rs:347-367 | a runtime event keeps the invariants |
| Turns.CompleteKeepsLogs | crates/app/src/control_plane.rs:270-345 | a completion ends the log of its turn with one terminal event and keeps all others |
| Turns.CompleteKeepsCompletions | crates/app/src/control_plane.rs:270-345 | a completion adds a key that was not there |
| Turns.CompleteKeepsRetention | crates/app/src/control_plane.rs:270-420 | pruning after a completion keeps the retained keys the greatest of all completions |
| Turns.PageIsLogSlice | crates/app/src/control_plane.rs:237-256 | a page is a slice of the full log, starting at the cursor or at the window if the cursor is older |
| Turns.PageHasNoGapExactly | crates/app/src/control_plane.rs:237-256 | a page continues right after its cursor if and only if the cursor is not older than the window |
| Turns.PagesAreContiguous | crates/app/src/control_plane.rs:237-256 | paging by last-seen number yields a contiguous stretch of the log, each event once and in order, while the turn moves on in between |
| Turns.RunRecordsAreSuccessive | crates/app/src/control_plane.rs:237-388 | records of a turn taken at any points of a run are successive states of one log |
| Turns.EmptyPageMeansCaughtUp | crates/app/src/control_plane.rs:237-256 | a page is empty if and only if the cursor has reached the end of the log |
| Turns.PageIsFull | crates/app/src/control_plane.rs:237-256 | a page has at most as many events as asked for, and at least one; it has fewer only when it reaches the end of the log |
| Turns.FirstAfterSlice | crates/app/src/control_plane.rs:248-254 | on gap-free numbers the filter by cursor and limit is a slice |
| TurnRegistry.Registry.constructor | crates/app/src/control_plane.rs:184-199 | a new registry is empty |
| TurnRegistry.Registry.IssueTurn | crates/app/src/control_plane.rs:201-229 | a step of the run model; the identifier is new and the turn is running |
| TurnRegistry.Registry.ReadTurn | crates/app/src/control_plane.rs:231-235 | the snapshot if retained, whose event count is the length of the turn’s full log |
| TurnRegistry.Registry.RecentEventsAfter | crates/app/src/control_plane.rs:237-256 | an error for an unknown turn, otherwise the slice of the full log that the page should be: no more than asked for, fewer only at the end of the log |
| TurnRegistry.Registry.CollectAfter | crates/app/src/control_plane.rs:248-254 | the loop collects the first events beyond the cursor, up to the limit |
| TurnRegistry.Registry.RecordRuntimeEvent | crates/app/src/control_plane.rs:262-268 | a step of the run model; fails exactly for unknown or terminal turns, with the error of each; appends one non-terminal event |
| TurnRegistry.Registry.CompleteSuccess | crates/app/src/control_plane.rs:270-311 | a step of the run model; fails exactly for unknown or terminal turns, with the error of each; appends the terminal event |
| TurnRegistry.Registry.CompleteFailure | crates/app/src/control_plane.rs:313-345 | a step of the run model; fails exactly for unknown or terminal turns, with the error of each; appends the terminal event |
| TurnRegistry.Registry.FinishTurn | crates/app/src/control_plane.rs:298-306 | stores the terminal record, extends the history and prunes |
| TurnRegistry.Registry.PushEventLocked | crates/app/src/control_plane.rs:369-388 | the next event and the record with its window cut to 256 |
| TurnRegistry.Registry.PruneTerminalTurnsLocked | crates/app/src/control_plane.rs:390-420 | keeps every running turn and the 256 greatest terminal ones; an ended turn that is removed was completed no later than any that is kept, at the same clock submitted no later, and at the same values has the smaller identifier |
| TurnRegistry.Registry.CollectCandidates | crates/app/src/control_plane.rs:399-410 | the candidates are the keys of the terminal turns, each once |
| TurnRegistry.RemainingKeys | crates/app/src/control_plane.rs:411-419 | removing the turns of the first sorted keys leaves those of the last ones and every running turn |
| TurnRegistry.RemovedEndedNoLater | crates/app/src/control_plane.rs:399-419 | the same comparison for any pruned map, on the snapshots alone |
| TurnCalls.DroppedBeforeRetained | crates/app/src/control_plane.rs:390-420 | in every run, of two turns that calls have completed, one gone and one kept, the one gone has the earlier completing call; at equal clocks, the earlier issuing call; at equal clocks again, the identifier that comes first |
| TurnCalls.DropsOnlyBeyondTheLimit | crates/app/src/control_plane.rs:390-398 | in every run, once a completed turn has gone exactly 256 ended turns are kept |
| TurnCalls.KeepsAtMostTheLimit | crates/app/src/control_plane.rs:390-420 | in every run at most 256 ended turns are kept |
| TurnCalls.OpenTurnFromCalls | crates/app/src/control_plane.rs:201-268 | in every run, a turn not completed since the call that issued it is there and running, with that call’s session and clock, and its log carries exactly the payloads recorded for it, in order |
| TurnCalls.EndedTurnFromCalls | crates/app/src/control_plane.rs:270-388 | in every run, the log of a completed turn is the payloads recorded while it was open and then how it ended; its record, while kept, shows the session and clock of the issuing call and the clock, status and outcome of the completing call; only a stop reason `cancelled` makes it cancelled |
| TurnCalls.NonceCountsIssues | crates/app/src/control_plane.rs:201-205 | in every run the sequence counter is the number of turns issued |
| EventPlane.EventsAreNumberedSafely | crates/app/src/control_plane.rs:745-828 | in every interleaving: pushed numbers are pairwise different, each event’s number is at most the sum of the versions it carries, one caller’s events are in increasing order, and the broadcast order is the retention order |
| EventPlane.QuiescentAccounts | crates/app/src/control_plane.rs:745-792 | with no call in flight the lane versions sum to the sequence number, and each number up to it has been pushed exactly once |
| EventPlane.NoLostWakeUp | crates/app/src/control_plane.rs:557-584 | in every interleaving, a waiter blocked without a pending notification has missed no push, and no retained event matches what it asked for |
| EventPlane.ReturnedIsFinal | crates/app/src/control_plane.rs:557-584 | in every interleaving a wait call keeps its query, and one that has returned stays as it returned |
| EventPlane.WaitStep | crates/app/src/control_plane.rs:566-583 | a wait registers before it checks, returns what it found or blocks, and, blocked, starts over only after a notification or gives up with nothing |
| EventPlane.InOrderExactly | crates/app/src/control_plane.rs:755-828 | once all calls are done, the history is in sequence order if and only if no push overtook a call that held a smaller number |
| EventPlane.NonOverlappingInOrder | crates/app/src/control_plane.rs:755-828 | calls that do not overlap are recorded in sequence order at every moment |
| EventPlane.OvertakingHappens | crates/app/src/control_plane.rs:755-828 | a run in which two overlapping calls are recorded out of order, and a reader that has seen the larger number finds nothing from its cursor on, although the smaller one is retained |
| EventPlane.PassedOnExactly | crates/daemon/src/control_plane_server.rs:1025-1034 | a subscriber that follows the broadcast is passed a visible event beyond its cursor if and only if no visible event with a number as large was broadcast before it |
| EventPlane.SubscriberReceivesAllExactly | crates/daemon/src/control_plane_server.rs:1025-1034 | once all calls are done, a subscriber from the start has been passed every event if and only if no push overtook a call holding a smaller number |
| EventPlane.InOrderPageIsSlice | crates/app/src/control_plane.rs:535-551 | in order, a page from a cursor inside the window is the first visible events of the history after the cursor, for readers with and without targeted events |
| EventPlane.PageEmptyExactly | crates/app/src/control_plane.rs:535-551 | a page is empty exactly when no retained event is selected |
| EventPlane.PageIsFirstSelected | crates/app/src/control_plane.rs:535-551 | a page is the first of all selected retained events: as many as asked for and at least one, or all there are |
| EventPlane.RunInv | crates/app/src/control_plane.rs:755-828 | every state of every interleaving satisfies the invariants |
| EventPlane.StepInv | crates/app/src/control_plane.rs:755-828 | every atomic step keeps the invariants |
| EventPlane.CountStep | crates/app/src/control_plane.rs:755-792 | the versions sum to the sequence number plus the calls that have bumped but not yet taken a number |
| EventPlane.VersionStep | crates/app/src/control_plane.rs:745-775 | the versions already loaded plus those still to load cover the number of the call |
| EventPlane.NumberStep | crates/app/src/control_plane.rs:755-828 | each number taken is held by exactly one call in flight or pushed exactly once |
| EventPlane.OrderStep | crates/app/src/control_plane.rs:755-828 | a caller’s next number is greater than all it has pushed |
| EventPlane.MirrorStep | crates/app/src/control_plane.rs:816-828 | history, broadcast and retained window stay copies of one another |
| EventPlane.WaiterStep | crates/app/src/control_plane.rs:557-584 | what a waiter has seen since it registered stays accurate |
| EventPlane.FinishAlone | crates/app/src/control_plane.rs:764-773 | a call left alone loads the five current versions and pushes |
| EventManager.CallAloneIsPath | crates/app/src/control_plane.rs:755-828 | an uninterrupted call is a path of the interleaving machine |
| EventManager.CallAloneKeepsInv | crates/app/src/control_plane.rs:755-828 | an uninterrupted call keeps all invariants and the order of the history |
| EventManager.IdleCounts | crates/app/src/control_plane.rs:745-792 | with the history in order, its length is the sequence number and the sum of the versions |
| EventManager.Manager.constructor | crates/app/src/control_plane.rs:468-501 | a new manager is the initial state of the machine |
| EventManager.Manager.RecordEvent | crates/app/src/control_plane.rs:755-774 | the event has the fields of the call, the next number and all current versions, and is last in log, broadcast and window; the version of the call’s lane grows by one and each of the other four stays |
| EventManager.Manager.BumpVersion | crates/app/src/control_plane.rs:776-792 | one lane’s version grows by one, the other four stay; presence, health, sessions, approvals and acp are told apart by position |
| EventManager.Manager.PushRecentEvent | crates/app/src/control_plane.rs:816-828 | the window stays the last events, the broadcast gets the same event, and waiters are notified |
| EventManager.Manager.RecentEventsAfter | crates/app/src/control_plane.rs:535-551 | the first of all selected events among the last 256, as many as asked for and at least one; from a cursor inside the window, the first visible events of the full log after it |
| EventManager.Manager.CollectSelected | crates/app/src/control_plane.rs:543-550 | the loop collects the first selected events, up to the limit |
| EventManager.Manager.RecentEvents | crates/app/src/control_plane.rs:515-533 | the last visible events of the window, in log order |
| EventManager.Manager.CollectVisible | crates/app/src/control_plane.rs:522-527 | the loop keeps the visible events in order |
| EventLanes.VersionsCountBumps | crates/app/src/control_plane.rs:745-792 | in every interleaving the versions are the numbers of bumps so far of presence, health, sessions, approvals and acp, in that order |
| EventLanes.QuiescentVersions | crates/app/src/control_plane.rs:745-792 | whenever no call is under way, each lane’s version is the number of recorded events of that lane |
| EventLanes.BumpsAreRecordedOrUnderway | crates/app/src/control_plane.rs:755-792 | in every interleaving the bumps of a lane are its recorded events and its calls under way |
| EventLanes.PushedEventOfCall | crates/app/src/control_plane.rs:755-774 | in every interleaving the event of a call has the call’s kind, payload and targeting and the number the call took, and for each lane a version between the lane’s bumps when the call began, its own included, and when it pushed |
| EventLanes.SeqNoCountsTakes | crates/app/src/control_plane.rs:755-760 | in every interleaving the sequence number is the number of numbers taken |
| CliShutdown.NoLostWakeUp | crates/app/src/chat.rs:167-191 | in every interleaving a waiter that cannot go on waits for a request or for a notify still to run; a waiter that returned was told to |
| CliShutdown.RequestedWaitersReturn | crates/app/src/chat.rs:167-191 | after a request every operation of a waiter brings it closer to returning, nothing else does, and once the notifications are out it can always take one |
| CliShutdown.RequestsFromSteps | crates/app/src/chat.rs:167-170 | in every interleaving shutdown is requested exactly when some requester has stored, and a requester owes a notify exactly between its store and that notify |
| CliShutdown.RequestersAlternate | crates/app/src/chat.rs:167-170 | a requester can store exactly when it owes no notify, and notify exactly when it owes one |
| CliShutdown.AwaitEndsByNotify | crates/app/src/chat.rs:176-191 | in every interleaving an awaiting waiter goes on exactly when some requester has notified since that waiter last registered |
| CliShutdown.UnrequestedWaiterBlocks | crates/app/src/chat.rs:176-191 | while shutdown is not requested no waiter returns, and each operation brings it one closer to blocking |
| CliShutdown.NotificationsCounted | crates/app/src/chat.rs:167-170 | the notifications are the notify operations so far |
| CliShutdown.RunInv | crates/app/src/chat.rs:167-191 | every state of every interleaving satisfies the invariant |
| ExpiringStore.StoreExactly | crates/app/src/control_plane.rs:870-982 | for any clock the map holds exactly the items the log of calls says are kept |
| ExpiringStore.AnswerExactly | crates/app/src/control_plane.rs:870-982 | for any clock a lookup returns an item if and only if it is kept and not expired |
| ExpiringStore.AnswerSound | crates/app/src/control_plane.rs:870-982 | for any clock a returned item was issued, neither dropped nor taken since, and not expired |
| ExpiringStore.AnswerUnderMonotoneClock | crates/app/src/control_plane.rs:870-982 | under a clock that does not go back, exactly the outstanding unexpired items are returned: eager purging is invisible |
| Leases.SteppedBackClockLosesLease | crates/app/src/control_plane.rs:870-928 | a lease that one call finds expired is gone for a call whose clock has stepped back, although it is outstanding and unexpired by that clock |
| ExpiringStore.TakenAtMostOnce | crates/app/src/control_plane.rs:953-965 | what was taken is not found again unless issued again, for any clock |
| ExpiringStore.ReturnedAtMostOnce | crates/app/src/control_plane.rs:953-965 | with tokens issued once, an item is returned by at most one take, for any clock |
| ExpiringStore.KeptStep | crates/app/src/control_plane.rs:870-982 | one more call: what it issues is kept, and what was kept stays unless ended or outlived |
| Leases.ConnectionRegistry.constructor | crates/app/src/control_plane.rs:861-864 | a new registry has an empty log |
| Leases.ConnectionRegistry.Issue | crates/app/src/control_plane.rs:866-868 | a lease that expires 900000 ms from now, or at the largest 64-bit time if that is sooner, under a token never issued before |
| Leases.ConnectionRegistry.IssueWithTtlMs | crates/app/src/control_plane.rs:903-928 | a lease that expires after the given lifetime, at least 1 ms, or at the largest 64-bit time if that is sooner; its token is the next number with the prefix of leases and was never issued before |
| Leases.ConnectionRegistry.Resolve | crates/app/src/control_plane.rs:870-889 | a returned lease is outstanding and unexpired for any clock; under a clock that has not gone back every such lease is returned |
| Leases.ConnectionRegistry.Revoke | crates/app/src/control_plane.rs:891-901 | tells whether the token was held; afterwards nothing is outstanding under it |
| Leases.ChallengeRegistry.constructor | crates/app/src/control_plane.rs:944-947 | a new registry has an empty log |
| Leases.ChallengeRegistry.Issue | crates/app/src/control_plane.rs:967-982 | a challenge that expires 60000 ms from now, or at the largest 64-bit time if that is sooner; its nonce is the next number with the prefix of challenges and was never issued before |
| Leases.ChallengeRegistry.Consume | crates/app/src/control_plane.rs:953-965 | a returned challenge is the one asked for, outstanding and unexpired for any clock, and is gone afterwards; under a clock that has not gone back every such challenge is returned |
| Leases.FreshToken | crates/app/src/control_plane.rs:903-981 | the next token differs from every token issued before |
| Pairing.ReadAnswersByLastApproval | crates/app/src/control_plane.rs:1112-1136 | in every interleaving the first lock region answers what the most recent approval of the device calls for |
| Pairing.ClassifyExactly | crates/app/src/control_plane.rs:1112-1136 | authorised if and only if the most recent approval has the same key and role, at least the requested scopes, and a token with the same hash; the other answers likewise |
| Pairing.PendingRequestsAreUnique | crates/app/src/control_plane.rs:1138-1257 | in every interleaving there is at most one pending request per device, key, role and scopes; a token and its identifier are there exactly on the approved requests, and a time of resolution on all but the pending ones |
| Pairing.PairingAnswersTheAsk | crates/app/src/control_plane.rs:1138-1180 | in every interleaving a call that has to pair is answered with a request that is stored and pending and has the device, key, role and scopes of the ask; it is new if and only if no stored pending request had these four; an unpersisted one is an error and changes nothing |
| Pairing.ResolvedRequestsAreFinal | crates/app/src/control_plane.rs:1205-1257 | in every interleaving a resolved request never changes again |
| PairingStore.StoreAgreesExactly | crates/app/src/control_plane.rs:1279-1345 | in every interleaving and however the store fails, each request in memory has a row, and the two show the same status if and only if no resolution of it was written and then reported as failed, or the lost one was a rejection and a later rejection went through |
| PairingStore.LostApprovalHappens | crates/app/src/session/repository.rs:2040-2160 | a run after which a request is rejected in memory and approved in the store |
| PairingStore.ResolvedIsStored | crates/app/src/control_plane.rs:1279-1345 | what is resolved in memory is resolved in its row, and what is approved in memory is approved there |
| PairingStore.StoredRunInv | crates/app/src/control_plane.rs:1279-1345 | every state of every run satisfies the account of memory and rows |
| PairingStore.ResolveKeepsRows | crates/app/src/session/repository.rs:2018-2110 | a rejection or an approval, written or not, reported or not, keeps the account |
| PairingStore.CreateKeepsRows | crates/app/src/session/repository.rs:1790-1850 | a creation, written or not, reported or not, keeps the account |
| PairingStore.NewIdIsUnstored | crates/app/src/session/repository.rs:1827-1837 | a new request never meets a row of its own identifier |
| Pairing.FailedPersistChangesNothing | crates/app/src/control_plane.rs:1173-1175 | a step whose persist fails leaves requests, devices and approvals unchanged; for whole calls see FindOrCreateRequest, ApprovePending and RejectPending |
| Pairing.StaleRequestExactly | crates/app/src/control_plane.rs:1112-1175 | a call makes a new pairing request for an ask that the most recent approval covers if and only if a request of that device with the same key and role and at least the scopes was approved, last, after the call had read the devices, no request for the ask is pending, and the new one is persisted |
| Pairing.StaleReadHappens | crates/app/src/control_plane.rs:1112-1175 | a run in which that race makes a new pending request for an ask that is already approved |
| Pairing.CoveredExactly | crates/app/src/control_plane.rs:1222-1245 | the most recent approval comes to cover an ask exactly when a request of its device with the same key and role and at least its scopes is approved and no later one of that device is |
| Pairing.RunInv | crates/app/src/control_plane.rs:1089-1257 | every state of every interleaving satisfies the invariants |
| Pairing.StepInv | crates/app/src/control_plane.rs:1089-1257 | every lock region keeps the invariants |
| Pairing.CreateKeepsInv | crates/app/src/control_plane.rs:1138-1180 | creating a request keeps the invariants |
| Pairing.RefuseKeepsInv | crates/app/src/control_plane.rs:1247-1256 | rejecting a request keeps the invariants |
| Pairing.PublishKeepsInv | crates/app/src/control_plane.rs:1222-1245 | publishing the device record of an approval keeps the invariants while the request itself is still to be updated |
| Pairing.StoreKeepsInv | crates/app/src/control_plane.rs:1246 | updating the approved request before the lock is released keeps the invariants |
| PairingRegistry.Registry.constructor | crates/app/src/control_plane.rs:1047-1063 | a new registry is empty |
| PairingRegistry.Registry.EvaluateConnect | crates/app/src/control_plane.rs:1089-1180 | the first blank field is an error that names it and changes nothing; otherwise the most recent approval decides; where it does not, the answer is a stored pending request with the device, key, role and scopes of the ask, new if and only if no stored pending request had these four |
| PairingRegistry.NormalizedAskExactly | crates/app/src/control_plane.rs:1098-1111 | normalising trims every field, drops blank scopes and no other, and takes a blank token as none |
| PairingRegistry.CompleteExactly | crates/app/src/control_plane.rs:1098-1101 | an ask is complete exactly when none of its four required fields is blank |
| PairingRegistry.Registry.FindOrCreateRequest | crates/app/src/control_plane.rs:1138-1180 | the answer is a stored pending request with the device, key, role and scopes of the ask; it is new, with the next identifier, if and only if no stored pending request had these four; a failed persist makes none |
| PairingRegistry.Registry.FindPending | crates/app/src/control_plane.rs:1142-1152 | finds a pending request if and only if one is stored with the device, key, role and scopes of the ask, and it has these four |
| PairingRegistry.Registry.ResolveRequest | crates/app/src/control_plane.rs:1205-1258 | a blank identifier is an error, an unknown one gives nothing, a resolved one is returned unchanged, a pending one is resolved |
| PairingRegistry.Registry.ApprovePending | crates/app/src/control_plane.rs:1221-1246 | the request is approved at this clock value with the next token identifier and the next token, its other fields unchanged, and the device record holds the token’s hash; a failed persist changes nothing but the counter |
| PairingRegistry.Registry.RejectPending | crates/app/src/control_plane.rs:1247-1256 | the request is rejected without a token; a failed persist changes nothing |
| PairingRegistry.IssuedTokenAuthorizes | crates/app/src/control_plane.rs:1112-1136 | the token an approval hands out authorises its device for all the approval covers, until the next approval of that device, whatever other devices are approved meanwhile |
| AuditWorker.RunConserves | crates/app/src/context.rs:159-264 | in every run the recorded events are the flushed batches, then the current batch, then the queue, in order; a flushed batch has between 1 and max(1, batch_size) events; after the worker has stopped all are flushed |
| AuditWorker.ShortBatchesAreEarly | crates/app/src/context.rs:164-206 | in every run a batch flushed with fewer than max(1, batch_size) events was flushed by a timeout or by the last sender going away |
| AuditWorker.ReceivedExactly | crates/app/src/context.rs:168-179 | an event received completes the batch, which is flushed, exactly when the batch then has max(1, batch_size) events; otherwise it joins the batch and nothing is flushed |
| AuditWorker.StepInv | crates/app/src/context.rs:164-264 | every send, hang-up and turn of the worker loop keeps the account and the bounds |
| AuditWorker.ReceiveInv | crates/app/src/context.rs:168-179 | receiving an event keeps the account and the bounds |
| AuditWorker.TimeoutFlushes | crates/app/src/context.rs:180-190 | after a timeout nothing received is left unflushed |
| AuditWorker.FlushKeepsEvents | crates/app/src/context.rs:216-255 | a flush moves the batch and loses nothing |
| AuditWorker.Sink.constructor | crates/app/src/context.rs:145-162 | a new sink has recorded nothing |
| AuditWorker.Sink.RecordEvent | crates/app/src/context.rs:259-263 | appends to the queue, or waits exactly when the queue holds twice max(1, batch_size) events; the worker is running whenever there is a sender |
| AuditWorker.WaitingEnds | crates/app/src/context.rs:146 | a sender that waits for room can go on once the worker has received one event |
| AuditWorker.Sink.Handle | crates/app/src/context.rs:164-206 | one turn of the loop is one step of the worker model; an event joins the batch, which is flushed exactly when it is then full; a timeout flushes a non-empty batch; a hang-up flushes and stops |
| AuditWorker.Sink.DrainQueue | crates/app/src/context.rs:192-194 | moves the whole queue to the batch, in order |
| AuditWorker.Sink.FlushBatch | crates/app/src/context.rs:216-255 | hands over a non-empty batch and empties it, whatever the server answers |
| ProfileNote.SplitProfileNoteBlocks | crates/app/src/runtime_identity.rs:182-240 | for every note the identity blocks hold exactly the non-blank lines a two-state reader assigns to the identity, in order, and the other blocks the advisory ones; no block is blank or untrimmed |
| ProfileNote.PartitionProfileNote | crates/app/src/runtime_identity.rs:166-180 | the same of the two lists of blocks |
| ProfileNote.EveryLineBelongs | crates/app/src/runtime_identity.rs:182-255 | every non-blank line belongs to exactly one of the two parts |
| ProfileNote.NestedHeadingsStayInIdentity | crates/app/src/runtime_identity.rs:214-226 | inside an identity import every line stays in it until the heading of another import |
| ProfileNote.SplitMeaning | crates/app/src/runtime_identity.rs:214-255 | the code splits before a heading exactly when the reader leaves its block |
| ProfileNote.IdentityByFirstToken | crates/app/src/runtime_identity.rs:242-267 | a block is an identity import exactly when its first non-blank line is one of the two import headings, in any letter case |
| ProfileNote.TakeLine | crates/app/src/runtime_identity.rs:186-204 | one turn of the loop keeps what has been read |
| ProfileNote.JoinBlocks | crates/app/src/runtime_identity.rs:283-299 | the result holds the non-blank lines of the blocks in order, and there is none exactly when they have none |
| ProfileNote.FinalizeTokens | crates/app/src/runtime_identity.rs:228-240 | a finalised block has the non-blank lines of its lines; there is none exactly when all are blank |
| LineText.TokensOfLines | crates/app/src/runtime_identity.rs:186-187 | splitting at line endings of either kind keeps the trimmed non-blank lines |
| LineText.TokensTrim | crates/app/src/runtime_identity.rs:233-236 | trimming a text keeps its trimmed non-blank lines |
| LineText.LinesOfJoin | crates/app/src/advisory_prompt.rs:29-39 | joined lines split again into the same lines up to white space at their ends |
| AdvisoryPrompt.GovernedExactly | crates/app/src/advisory_prompt.rs:142-194 | a line is a governed heading if and only if it is one to six hashes, a reserved title in any letter case and an optional closing run of hashes, with white space around each |
| AdvisoryPrompt.DemoteGovernedAdvisoryHeadingsWithAllowedRoots | crates/app/src/advisory_prompt.rs:22-40 | one output line per input line; a line is still a governed heading exactly when it is the first heading and an allowed root; demoted lines are no headings, all others are verbatim |
| AdvisoryPrompt.DemoteLineMeaning | crates/app/src/advisory_prompt.rs:84-140 | the same of a single line |
| AdvisoryPrompt.DemotionIsStable | crates/app/src/advisory_prompt.rs:84-115 | a demoted line is not governed and demoting it again changes nothing |
| AdvisoryPrompt.FirstMarkdownHeadingLineIndex | crates/app/src/advisory_prompt.rs:117-127 | the index of the first heading line, or none when there is no heading |
| AdvisoryPrompt.MarkdownHeadingText | crates/app/src/advisory_prompt.rs:142-163 | the loop counts the leading hashes and yields the heading text |
| SessionProfile.RenderSessionProfileSection | crates/app/src/runtime_identity.rs:59-84 | for every note and personalization: the section has exactly one governed heading, its first line, with lines ended as `str::lines` ends them; its other lines are those of the advisory content, verbatim but for demoted headings; there is no section exactly when there is nothing advisory; where a carriage return alone ends a line too, the first claim holds exactly when no advisory line hides a heading |
| SessionProfile.LoneReturnsExactly | crates/app/src/advisory_prompt.rs:29-39 | with the line endings of section 2.1 of the CommonMark specification, the section has exactly one governed heading if and only if no line of its content hides one behind a lone carriage return |
| SessionProfile.LoneReturnHidesHeading | crates/app/src/advisory_prompt.rs:29-39 | a note whose heading after a lone carriage return is not demoted |
| SessionProfile.SectionHasOneGovernedHeading | crates/app/src/runtime_identity.rs:74-83 | the section built from any demoted content has exactly one governed heading, its first line |
| SessionProfile.AdvisoryBlocks | crates/app/src/runtime_identity.rs:63-71 | the blocks hold the advisory lines of the note followed by the lines of the preferences |
| SessionProfile.ResolveAdvisoryProfileNote | crates/app/src/runtime_identity.rs:109-114 | the advisory lines of the note, in order; none exactly when it has none |
| SessionProfile.ResolveLegacyImportedIdentity | crates/app/src/runtime_identity.rs:102-107 | the identity lines of the note, in order; none exactly when it has none |
| SessionProfile.RenderAdvisoryPersonalization | crates/app/src/runtime_identity.rs:116-155 | a text exactly when some preference is more than white space; it is the set preferences, one after the other |
| SessionProfile.PersonalizationLines | crates/app/src/runtime_identity.rs:121-148 | the lines pushed are those of the set preferences, in order |
| SessionProfile.PreferencesShown | crates/app/src/runtime_identity.rs:121-148 | each setting of density and initiative that is set is shown on a line in its own words |
| SessionProfile.AllPreferencesShown | crates/app/src/runtime_identity.rs:121-148 | with everything set, the seven lines in their order |
| SessionProfile.NormalizedIsStable | crates/app/src/config/memory.rs:120-151 | normalising keeps the preferences shown, and is empty only when there are none |
| RuntimeSelf.LoadExactly | crates/app/src/runtime_self.rs:93-126 | for every list of sources the load is determined by the sources alone: a readable source, each canonical path once, is shown exactly when it is the first or something is left for the one before it, and is made with the total budget less what the sources before it ask for |
| RuntimeSelf.VerbatimExactly | crates/app/src/runtime_self.rs:305-376 | a shown source is verbatim if and only if it fits the budget of one source and what the sources before it leave of the total, or it is the notice itself and nothing is left |
| RuntimeSelf.FittingIsVerbatim | crates/app/src/runtime_self.rs:329-337 | a source that fits both budgets is shown and verbatim, whatever comes before it |
| RuntimeSelf.WithinBudgetExactly | crates/app/src/runtime_self.rs:93-126 | the load stays within the total budget if and only if the sources before the last one ask for less than all of it, or compact notices have saved as much as the final notice takes |
| RuntimeSelf.RenderedExactly | crates/app/src/runtime_self.rs:93-126 | the number of entries and of characters, from the sources alone: when the budget is used up before the last source, the total budget less the slack of compact notices plus exactly one notice |
| RuntimeSelf.RoomExactly | crates/app/src/runtime_self.rs:102-123 | the budget is used up before the last source exactly when the sources before it ask for all of it |
| RuntimeSelf.LoadKeepsBudget | crates/app/src/runtime_self.rs:93-126 | each canonical path contributes at most once, each entry is verbatim, a prefix with a notice or a notice alone, the total budget is exceeded by at most one notice, and no readable source is left out unless the budget is used up |
| RuntimeSelf.NoticeExceedsBudget | crates/app/src/runtime_self.rs:311-323 | a source after one that uses up the budget exceeds it by exactly its notice |
| RuntimeSelf.LoadFrom | crates/app/src/runtime_self.rs:102-123 | the loop reaches the reference from any state it can be in |
| RuntimeSelf.IngestReaches | crates/app/src/runtime_self.rs:247-279 | taking a source with something left is the next step of the reference |
| RuntimeSelf.StopShows | crates/app/src/runtime_self.rs:109-122 | with nothing left one more source is entered, as a notice, and all further ones are left out |
| RuntimeSelf.ChargeIsDemand | crates/app/src/runtime_self.rs:272-275 | a source is charged what it asks for or all that is left, whichever is less, and never shows more than it is charged |
| RuntimeSelf.TruncateWithinBudget | crates/app/src/runtime_self.rs:305-376 | with budget left a source is verbatim if and only if it fits; otherwise it is a non-empty prefix and the notice, filling the limit exactly, or the best notice alone; the notice names the per-source budget exactly when that is no more than what is left |
| RuntimeSelf.NoticeTexts | crates/app/src/runtime_self.rs:383-424 | the five texts of a notice, with the label of the source and the budget exceeded |
| RuntimeSelf.CompactNoticeIsBest | crates/app/src/runtime_self.rs:397-428 | the most detailed notice that fits, or dots when none does |
| RuntimeSelf.Loader.constructor | crates/app/src/runtime_self.rs:98-100 | a new loader has the whole budget and no paths |
| RuntimeSelf.Loader.AppendContent | crates/app/src/runtime_self.rs:281-303 | the text goes to the end of its lane, the other lanes stay |
| RuntimeSelf.Loader.Ingest | crates/app/src/runtime_self.rs:247-279 | a known path changes nothing; a new one is entered, truncated and charged |
| RuntimeSelf.Loader.Load | crates/app/src/runtime_self.rs:102-125 | the loop with its early exit shows exactly what the reference shows |
| SecretRefs.ExplicitExactly | crates/contracts/src/secret_ref.rs:219-280 | a text names a variable if and only if it spells it as `$NAME`, `${NAME}`, `env:NAME` or `%NAME%` with white space where the code allows it |
| SecretRefs.ParsersAreDisjoint | crates/contracts/src/secret_ref.rs:219-258 | at most one of the three parsers can succeed, so their order does not matter |
| SecretRefs.SpelledParses | crates/contracts/src/secret_ref.rs:225-280 | every spelling is parsed to its name |
| SecretRefs.ParsedIsSpelled | crates/contracts/src/secret_ref.rs:225-280 | whatever is parsed is a spelling of the name |
| SecretRefs.EnvNameExactly | crates/contracts/src/secret_ref.rs:260-280 | a name is letters, digits and underscores and does not start with a digit |
| SecretRefs.RoundTripExactly | crates/contracts/src/secret_ref.rs:84-217 | writing a reference and reading it back gives it again if and only if it is canonical |
| SecretRefs.DeserializedRoundTrips | crates/contracts/src/secret_ref.rs:84-217 | every reference read from a document survives writing and reading |
| SecretRefs.DeserializedIsCanonical | crates/contracts/src/secret_ref.rs:128-217 | whatever is read from a document is canonical |
| SecretRefs.TableAcceptedExactly | crates/contracts/src/secret_ref.rs:142-217 | a table is accepted if and only if it is well typed, has no other field, and holds exactly one of a non-blank variable, a non-blank file and a command with a non-blank program |
| SecretRefs.InlineSpellingIsReread | crates/contracts/src/secret_ref.rs:89-90 | an inline text that spells a variable comes back as a reference to the variable |
| Secrets.Setting.CanonicalizeEnvSecretReference | crates/app/src/secrets.rs:242-266 | the resolved value is the same in every environment; the result is settled and doing it again changes nothing; otherwise the variable replaces the reference |
| Secrets.ResolvedExactly | crates/app/src/secrets.rs:32-228 | in every world a value is resolved if and only if the deciding variable holds it (the spelled one, or the configured one when no reference is set), or it is the literal inline text, or the file or command yields it |
| Secrets.NamedRefResolvesLikeVariable | crates/app/src/secrets.rs:32-78 | a reference that names a variable resolves, in every world, to what reading that variable gives |
| Secrets.NoRefReadsVariable | crates/app/src/secrets.rs:197-228 | without a reference the configured variable is read |

## Left out

- AuditWorker.Sink.Handle: the flush deadline is not modelled; a timeout may be reported at any time.
- EventManager.Manager.RecordEvent: calls on the class do not overlap; overlapping calls are the interleavings of `EventPlane`.
- PairingRegistry.Registry.EvaluateConnect: calls on the class do not overlap; overlapping calls are the interleavings of `Pairing`.
- Turns.IssueKeepsInv: taking the sequence number and inserting the turn are one step, although the code takes the number before the lock; the same holds of issuing leases and challenges.
- Dropping the HTTP audit sink, HTTP and UDP delivery, and the other audit sinks.
- The order of turn broadcasts, which are sent after the registry lock is released, and lag of broadcast receivers.
- Reordering of relaxed atomic operations: each atomic operation is one step of a sequentially consistent interleaving.
- Wrap-around of 64-bit nonces, sequence numbers and versions, which are unbounded here.
- Lock poisoning, and errors other than unknown, terminal, missing or unpersisted.
- PairingStore.StoreAgreesExactly: rows are their status only; times, token identifiers and the device-token table are not modelled, nor are other writers of the store.
- Loading of persisted pairing records, listing of requests, SQLite itself, and the repository and ACP views.
- EventPlane.PassedOnExactly: a subscriber that does not lag; its first page of retained events is not modelled.
- A panic of the audit worker, after which a send would report a closed channel.
- SHA-256 and random components: the hash is any function, random components are any numbers.
- Snapshot counters and the thin `record_*` helpers of the event manager: easy members only.
- The text of regular expressions, the YAML and Markdown output of the label script, and the wording of the errors of its other checks.
- Wrapping.OutcomeIsGreedy: a segment too wide for the line it has to start is cut; then only the visible characters and the width bound are stated (`Wrapping.OutcomeKeepsInk`, `Wrapping.OutcomeWithinWidth`).
- Banner, colour, terminal width, CSV and display-line wrappers around wrapping.
- The inline-value compaction and JSON rendering of advisory text.
- Discovery, canonical paths and reading of runtime-self sources; rendering of the runtime-self section and of the resolved identity section.
- Reading of file and command secrets: their results are an arbitrary function of the reference.
- Repeated keys in a secret table, and file paths that are not text.
- Case-insensitive comparison is the ASCII one the code uses; no Unicode case folding.
