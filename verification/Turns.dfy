/** The control plane's turn registry (crates/app/src/control_plane.rs): turn
    lifecycle, bounded event logs and pruning of terminal turns. `Turns` is the
    state machine with its history; `TurnRegistry` is the registry itself. */
module Turns {
  import opened Text
  import opened Identifiers
  import opened TopKeys
  import opened Windows

  const RECENT_EVENT_LIMIT: nat := 256
  const TERMINAL_RETENTION_LIMIT: nat := 256
  const TURN_PREFIX := "cpt-turn-"

  datatype Status = Running | Completed | Failed | Cancelled
  {
    predicate IsTerminal()
    {
      !Running?
    }
  }

  datatype Payload =
    | RuntimePayload(value: string)
    | TurnCompleted(outputText: string, stopReason: Option<string>, usage: Option<string>)
    | TurnFailed(error: string)

  datatype TurnEvent = TurnEvent(turnId: string, sessionId: string, seqNo: nat, terminal: bool, payload: Payload)

  datatype Snapshot = Snapshot(
    turnId: string, sessionId: string, status: Status, submittedAt: nat, completedAt: Option<nat>,
    eventCount: nat, outputText: Option<string>, stopReason: Option<string>, usage: Option<string>,
    error: Option<string>)

  datatype TurnRecord = TurnRecord(snapshot: Snapshot, recent: seq<TurnEvent>, nextSeq: nat)

  /** How a turn ends. */
  datatype Ending =
    | Success(outputText: string, stopReason: Option<string>, usage: Option<string>)
    | Failure(error: string)

  /** One call, with the clock value and random component it draws. */
  datatype Op =
    | Issue(sessionId: string, now: nat, random: nat)
    | RuntimeEvent(turnId: string, payload: Payload)
    | Complete(turnId: string, now: nat, ending: Ending)

  /** The registry and its history: every event of every turn ever issued, and
      the key of every turn ever completed. */
  datatype State = State(
    nonce: nat, turns: map<string, TurnRecord>,
    logs: map<string, seq<TurnEvent>>, completions: seq<Key>)

  const EMPTY := State(0, map[], map[], [])

  // -------------------------------------------------------------------- steps

  function NewRecord(id: string, sessionId: string, now: nat): TurnRecord
  {
    TurnRecord(Snapshot(id, sessionId, Running, now, None, 0, None, None, None, None), [], 1)
  }

  function NextEvent(r: TurnRecord, terminal: bool, payload: Payload): TurnEvent
  {
    TurnEvent(r.snapshot.turnId, r.snapshot.sessionId, r.nextSeq, terminal, payload)
  }

  function Pushed(r: TurnRecord, terminal: bool, payload: Payload): TurnRecord
  {
    TurnRecord(r.snapshot.(eventCount := r.snapshot.eventCount + 1),
               Last(r.recent + [NextEvent(r, terminal, payload)], RECENT_EVENT_LIMIT),
               r.nextSeq + 1)
  }

  function EndingPayload(ending: Ending): Payload
  {
    match ending
    case Success(text, reason, usage) => TurnCompleted(text, reason, usage)
    case Failure(error) => TurnFailed(error)
  }

  function EndingStatus(ending: Ending): Status
  {
    match ending
    case Success(_, reason, _) => if reason == Some("cancelled") then Cancelled else Completed
    case Failure(_) => Failed
  }

  function Ended(r: TurnRecord, now: nat, ending: Ending): TurnRecord
  {
    var snapshot := r.snapshot.(status := EndingStatus(ending), completedAt := Some(now));
    var snapshot := match ending
      case Success(text, reason, usage) =>
        snapshot.(outputText := Some(text), stopReason := reason, usage := usage, error := None)
      case Failure(error) =>
        snapshot.(outputText := None, stopReason := None, usage := None, error := Some(error));
    Pushed(r.(snapshot := snapshot), true, EndingPayload(ending))
  }

  /** The key a terminal turn is pruned by. */
  function KeyOf(id: string, r: TurnRecord): Key
  {
    Key(if r.snapshot.completedAt.Some? then r.snapshot.completedAt.value else r.snapshot.submittedAt,
        r.snapshot.submittedAt, id)
  }

  function TerminalKeys(turns: map<string, TurnRecord>): set<Key>
  {
    set id | id in turns && turns[id].snapshot.status.IsTerminal() :: KeyOf(id, turns[id])
  }

  /** `after` is `before` without the terminal turns that exceed the retention limit. */
  ghost predicate Pruned(before: map<string, TurnRecord>, after: map<string, TurnRecord>)
  {
    && (forall id :: id in after ==> id in before && after[id] == before[id])
    && (forall id :: id in before && before[id].snapshot.status == Running ==> id in after)
    && IsTop(TerminalKeys(after), TerminalKeys(before), TERMINAL_RETENTION_LIMIT)
  }

  predicate Mutable(turns: map<string, TurnRecord>, id: string)
  {
    id in turns && !turns[id].snapshot.status.IsTerminal()
  }

  function LogOf(s: State, id: string): seq<TurnEvent>
  {
    if id in s.logs then s.logs[id] else []
  }

  ghost predicate IssueStep(s: State, sessionId: string, now: nat, random: nat, s': State)
  {
    var id := MakeId(TURN_PREFIX, s.nonce + 1, random);
    s' == State(s.nonce + 1, s.turns[id := NewRecord(id, sessionId, now)], s.logs[id := []], s.completions)
  }

  ghost predicate EventStep(s: State, id: string, payload: Payload, s': State)
    requires Mutable(s.turns, id)
  {
    s' == s.(turns := s.turns[id := Pushed(s.turns[id], false, payload)],
             logs := s.logs[id := LogOf(s, id) + [NextEvent(s.turns[id], false, payload)]])
  }

  ghost predicate CompleteStep(s: State, id: string, now: nat, ending: Ending, s': State)
    requires Mutable(s.turns, id)
  {
    var ended := Ended(s.turns[id], now, ending);
    && s'.nonce == s.nonce
    && s'.logs == s.logs[id := LogOf(s, id) + [NextEvent(s.turns[id], true, EndingPayload(ending))]]
    && s'.completions == s.completions + [KeyOf(id, ended)]
    && Pruned(s.turns[id := ended], s'.turns)
  }

  /** One call of the registry. A call on a missing or terminal turn changes nothing. */
  ghost predicate Next(s: State, op: Op, s': State)
  {
    match op
    case Issue(sessionId, now, random) => IssueStep(s, sessionId, now, random, s')
    case RuntimeEvent(id, payload) =>
      if Mutable(s.turns, id) then EventStep(s, id, payload, s') else s' == s
    case Complete(id, now, ending) =>
      if Mutable(s.turns, id) then CompleteStep(s, id, now, ending, s') else s' == s
  }

  // --------------------------------------------------------------- invariants

  /** A turn's full log: numbered from one, terminal only at its end. */
  ghost predicate LogInv(id: string, log: seq<TurnEvent>)
  {
    && (forall i :: 0 <= i < |log| ==> log[i].seqNo == i + 1 && log[i].turnId == id)
    && (forall i :: 0 <= i < |log| - 1 ==> !log[i].terminal)
  }

  predicate EndsTerminal(log: seq<TurnEvent>)
  {
    log != [] && log[|log| - 1].terminal
  }

  /** What a retained record says of its log. */
  ghost predicate RecordInv(id: string, r: TurnRecord, log: seq<TurnEvent>)
  {
    && r.snapshot.turnId == id
    && r.recent == Last(log, RECENT_EVENT_LIMIT)
    && r.nextSeq == |log| + 1
    && r.snapshot.eventCount == |log|
    && (r.snapshot.status.IsTerminal() <==> EndsTerminal(log))
  }

  ghost predicate IssuedUpTo(id: string, nonce: nat)
  {
    exists k: nat, random: nat :: k <= nonce && id == MakeId(TURN_PREFIX, k, random)
  }

  /** Turn logs and the records kept of them. */
  ghost predicate LogsInv(s: State)
  {
    && (forall id :: id in s.logs ==> LogInv(id, s.logs[id]) && IssuedUpTo(id, s.nonce))
    && (forall id :: id in s.turns ==> id in s.logs && RecordInv(id, s.turns[id], s.logs[id]))
  }

  predicate CompletedId(completions: seq<Key>, id: string)
  {
    exists i :: 0 <= i < |completions| && completions[i].id == id
  }

  /** The turns that have completed are those whose log has ended, once each. */
  ghost predicate CompletionsInv(s: State)
  {
    && Distinct(s.completions)
    && (forall id :: CompletedId(s.completions, id) ==> id in s.logs)
    && (forall id :: id in s.logs ==> (EndsTerminal(s.logs[id]) <==> CompletedId(s.completions, id)))
  }

  /** The retained terminal turns are the greatest ever completed, and a turn is
      dropped only after it has completed. */
  ghost predicate RetentionInv(s: State)
  {
    && IsTop(TerminalKeys(s.turns), Elements(s.completions), TERMINAL_RETENTION_LIMIT)
    && (forall id :: id in s.logs && !EndsTerminal(s.logs[id]) ==> id in s.turns)
  }

  ghost predicate Inv(s: State)
  {
    LogsInv(s) && CompletionsInv(s) && RetentionInv(s)
  }

  lemma FreshId(s: State, random: nat)
    requires LogsInv(s)
    ensures MakeId(TURN_PREFIX, s.nonce + 1, random) !in s.logs
  {
    var id := MakeId(TURN_PREFIX, s.nonce + 1, random);
    if id in s.logs {
      var k: nat, r: nat :| k <= s.nonce && id == MakeId(TURN_PREFIX, k, r);
      IdDistinct(TURN_PREFIX, k, r, s.nonce + 1, random);
    }
  }

  /** `r` agrees with its log in all but the status. */
  ghost predicate CountsInv(id: string, r: TurnRecord, log: seq<TurnEvent>)
  {
    && r.snapshot.turnId == id
    && r.recent == Last(log, RECENT_EVENT_LIMIT)
    && r.nextSeq == |log| + 1
    && r.snapshot.eventCount == |log|
  }

  lemma PushedRecordInv(id: string, r: TurnRecord, log: seq<TurnEvent>, terminal: bool, payload: Payload)
    requires LogInv(id, log) && !EndsTerminal(log) && CountsInv(id, r, log)
    requires r.snapshot.status.IsTerminal() <==> terminal
    ensures LogInv(id, log + [NextEvent(r, terminal, payload)])
    ensures EndsTerminal(log + [NextEvent(r, terminal, payload)]) <==> terminal
    ensures RecordInv(id, Pushed(r, terminal, payload), log + [NextEvent(r, terminal, payload)])
  {
    LastAppend(log, NextEvent(r, terminal, payload), RECENT_EVENT_LIMIT);
  }

  lemma EndedRecordInv(id: string, r: TurnRecord, log: seq<TurnEvent>, now: nat, ending: Ending)
    requires LogInv(id, log) && !EndsTerminal(log) && RecordInv(id, r, log)
    ensures LogInv(id, log + [NextEvent(r, true, EndingPayload(ending))])
    ensures EndsTerminal(log + [NextEvent(r, true, EndingPayload(ending))])
    ensures RecordInv(id, Ended(r, now, ending), log + [NextEvent(r, true, EndingPayload(ending))])
    ensures Ended(r, now, ending).snapshot.status.IsTerminal()
  {
    var snapshot := r.snapshot.(status := EndingStatus(ending), completedAt := Some(now));
    var snapshot' := match ending
      case Success(text, reason, usage) =>
        snapshot.(outputText := Some(text), stopReason := reason, usage := usage, error := None)
      case Failure(error) =>
        snapshot.(outputText := None, stopReason := None, usage := None, error := Some(error));
    PushedRecordInv(id, r.(snapshot := snapshot'), log, true, EndingPayload(ending));
  }

  /** What is known of a turn that may still be changed. */
  lemma MutableFacts(s: State, id: string)
    requires LogsInv(s) && Mutable(s.turns, id)
    ensures id in s.logs && LogOf(s, id) == s.logs[id] && LogInv(id, s.logs[id]) && !EndsTerminal(s.logs[id])
    ensures RecordInv(id, s.turns[id], s.logs[id]) && CountsInv(id, s.turns[id], s.logs[id])
  {
    hide IssuedUpTo;
  }

  lemma TerminalKeysRunning(turns: map<string, TurnRecord>, id: string, r: TurnRecord)
    requires !r.snapshot.status.IsTerminal()
    requires id in turns ==> !turns[id].snapshot.status.IsTerminal()
    ensures TerminalKeys(turns[id := r]) == TerminalKeys(turns)
  {
    var turns' := turns[id := r];
    forall k | k in TerminalKeys(turns) ensures k in TerminalKeys(turns') {
      var i :| i in turns && turns[i].snapshot.status.IsTerminal() && k == KeyOf(i, turns[i]);
      assert i in turns' && turns'[i] == turns[i];
    }
  }

  lemma TerminalKeysAdded(turns: map<string, TurnRecord>, id: string, r: TurnRecord)
    requires r.snapshot.status.IsTerminal() && Mutable(turns, id)
    ensures TerminalKeys(turns[id := r]) == TerminalKeys(turns) + {KeyOf(id, r)}
  {
    var turns' := turns[id := r];
    assert id in turns' && turns'[id] == r;
    forall k | k in TerminalKeys(turns) ensures k in TerminalKeys(turns') {
      var i :| i in turns && turns[i].snapshot.status.IsTerminal() && k == KeyOf(i, turns[i]);
      assert i in turns' && turns'[i] == turns[i];
    }
  }

  /** Replacing one turn's record and log by good ones keeps the logs good. */
  lemma LogsUpdated(s: State, id: string, r: TurnRecord, log: seq<TurnEvent>, s': State)
    requires LogsInv(s) && LogInv(id, log) && RecordInv(id, r, log) && IssuedUpTo(id, s'.nonce)
    requires s.nonce <= s'.nonce && s'.logs == s.logs[id := log]
    requires forall i :: i in s'.turns ==> if i == id then s'.turns[i] == r else i in s.turns && s'.turns[i] == s.turns[i]
    ensures LogsInv(s')
  {
    hide LogInv;
    hide RecordInv;
    forall i | i in s'.logs ensures IssuedUpTo(i, s'.nonce) {
      if i != id {
        IssuedLater(i, s.nonce, s'.nonce);
      }
    }
  }

  lemma IssuedLater(id: string, n: nat, n': nat)
    requires IssuedUpTo(id, n) && n <= n'
    ensures IssuedUpTo(id, n')
  {
    hide MakeId;
    var k: nat, r: nat :| k <= n && id == MakeId(TURN_PREFIX, k, r);
  }

  lemma IssueKeepsInv(s: State, sessionId: string, now: nat, random: nat, s': State)
    requires Inv(s) && IssueStep(s, sessionId, now, random, s')
    ensures Inv(s')
  {
    FreshId(s, random);
    hide MakeId;
    hide TerminalKeys;
    hide IsTop;
    hide RecordInv;
    hide LogInv;
    var id := MakeId(TURN_PREFIX, s.nonce + 1, random);
    NewRecordInv(id, sessionId, now);
    assert id !in s.turns;
    TerminalKeysRunning(s.turns, id, NewRecord(id, sessionId, now));
    assert IssuedUpTo(id, s'.nonce);
    LogsUpdated(s, id, NewRecord(id, sessionId, now), [], s');
    hide LogsInv;
    IssueKeepsCompletions(s, s', id);
  }

  lemma IssueKeepsCompletions(s: State, s': State, id: string)
    requires CompletionsInv(s) && id !in s.logs && s'.logs == s.logs[id := []] && s'.completions == s.completions
    ensures CompletionsInv(s')
  {
    hide CompletedId;
  }

  lemma NewRecordInv(id: string, sessionId: string, now: nat)
    ensures LogInv(id, []) && RecordInv(id, NewRecord(id, sessionId, now), [])
  {
  }

  lemma EventKeepsInv(s: State, id: string, payload: Payload, s': State)
    requires Inv(s) && Mutable(s.turns, id) && EventStep(s, id, payload, s')
    ensures Inv(s')
  {
    hide TerminalKeys;
    hide IsTop;
    hide IssuedUpTo;
    hide RecordInv;
    hide CountsInv;
    hide LogInv;
    hide EndsTerminal;
    hide CompletedId;
    MutableFacts(s, id);
    PushedRecordInv(id, s.turns[id], s.logs[id], false, payload);
    TerminalKeysRunning(s.turns, id, Pushed(s.turns[id], false, payload));
    assert IssuedUpTo(id, s.nonce);
    LogsUpdated(s, id, s'.turns[id], s'.logs[id], s');
    hide LogsInv;
  }

  lemma CompleteKeepsLogs(s: State, id: string, now: nat, ending: Ending, s': State)
    requires LogsInv(s) && Mutable(s.turns, id) && CompleteStep(s, id, now, ending, s')
    ensures LogsInv(s') && EndsTerminal(s'.logs[id])
  {
    hide IsTop;
    hide IssuedUpTo;
    hide RecordInv;
    hide LogInv;
    hide Ended;
    hide EndsTerminal;
    MutableFacts(s, id);
    EndedRecordInv(id, s.turns[id], s.logs[id], now, ending);
    assert IssuedUpTo(id, s.nonce);
    LogsUpdated(s, id, Ended(s.turns[id], now, ending), s'.logs[id], s');
  }

  lemma CompleteKeepsCompletions(s: State, id: string, now: nat, ending: Ending, s': State)
    requires Inv(s) && Mutable(s.turns, id) && CompleteStep(s, id, now, ending, s')
    ensures CompletionsInv(s') && KeyOf(id, Ended(s.turns[id], now, ending)) !in s.completions
  {
    hide LogsInv;
    hide LogInv;
    hide RetentionInv;
    hide Ended;
    hide Pruned;
    hide RecordInv;
    hide CountsInv;
    hide EndsTerminal;
    MutableFacts(s, id);
    CompleteKeepsLogs(s, id, now, ending, s');
    var k := KeyOf(id, Ended(s.turns[id], now, ending));
    assert k.id == id && !CompletedId(s.completions, id);
    assert k !in s.completions;
    forall i ensures CompletedId(s'.completions, i) <==> i == id || CompletedId(s.completions, i) {
      CompletedMore(s.completions, k, i);
    }
    hide CompletedId;
  }

  lemma CompletedMore(completions: seq<Key>, k: Key, id: string)
    ensures CompletedId(completions + [k], id) <==> id == k.id || CompletedId(completions, id)
  {
    var all := completions + [k];
    if id == k.id {
      assert all[|completions|].id == id;
    }
    if i :| 0 <= i < |completions| && completions[i].id == id {
      assert all[i].id == id;
    }
  }

  lemma CompleteKeepsRetention(s: State, id: string, now: nat, ending: Ending, s': State)
    requires Inv(s) && Mutable(s.turns, id) && CompleteStep(s, id, now, ending, s')
    ensures RetentionInv(s')
  {
    hide LogsInv;
    hide LogInv;
    hide RecordInv;
    hide CountsInv;
    hide CompletionsInv;
    hide IsTop;
    hide TerminalKeys;
    hide Ended;
    hide EndsTerminal;
    hide KeyOf;
    var ended := Ended(s.turns[id], now, ending);
    var k := KeyOf(id, ended);
    MutableFacts(s, id);
    EndedRecordInv(id, s.turns[id], s.logs[id], now, ending);
    CompleteKeepsCompletions(s, id, now, ending, s');
    CompleteKeepsLogs(s, id, now, ending, s');
    TerminalKeysAdded(s.turns, id, ended);
    TopInsert(TerminalKeys(s.turns), Elements(s.completions), k, TerminalKeys(s'.turns), TERMINAL_RETENTION_LIMIT);
    assert Elements(s'.completions) == Elements(s.completions) + {k};
    forall i | i in s'.logs && !EndsTerminal(s'.logs[i]) ensures i in s'.turns {
      RunningKept(s, i);
    }
  }

  lemma RunningKept(s: State, id: string)
    requires Inv(s)
    ensures id in s.logs && !EndsTerminal(s.logs[id]) ==> id in s.turns && s.turns[id].snapshot.status == Running
  {
    hide IsTop;
    hide IssuedUpTo;
    hide CompletionsInv;
  }

  /** Every call keeps the invariants. */
  lemma StepInv(s: State, op: Op, s': State)
    requires Inv(s) && Next(s, op, s')
    ensures Inv(s')
  {
    hide LogsInv;
    hide CompletionsInv;
    hide RetentionInv;
    match op
    case Issue(sessionId, now, random) => IssueKeepsInv(s, sessionId, now, random, s');
    case RuntimeEvent(id, payload) =>
      if Mutable(s.turns, id) {
        EventKeepsInv(s, id, payload, s');
      }
    case Complete(id, now, ending) =>
      if Mutable(s.turns, id) {
        CompleteKeepsLogs(s, id, now, ending, s');
        CompleteKeepsCompletions(s, id, now, ending, s');
        CompleteKeepsRetention(s, id, now, ending, s');
      }
  }

  // --------------------------------------------------------------------- runs

  /** `states` is a run of `ops` from the empty registry, one call at a time. */
  ghost predicate IsRun(states: seq<State>, ops: seq<Op>)
  {
    && |states| == |ops| + 1
    && states[0] == EMPTY
    && forall i :: 0 <= i < |ops| ==> Next(states[i], ops[i], states[i + 1])
  }

  lemma RunStep(states: seq<State>, ops: seq<Op>, i: nat)
    requires IsRun(states, ops) && i < |ops|
    ensures i + 1 < |states| && Next(states[i], ops[i], states[i + 1])
  {
    hide Next;
  }

  /** Every state of every run satisfies the invariants, whatever the clock says. */
  lemma {:induction false} RunInv(states: seq<State>, ops: seq<Op>, i: nat)
    requires IsRun(states, ops) && i < |states|
    ensures Inv(states[i])
    decreases i
  {
    if i > 0 {
      hide Inv;
      hide Next;
      RunInv(states, ops, i - 1);
      StepInv(states[i - 1], ops[i - 1], states[i]);
    } else {
      assert TerminalKeys(map[]) == {} && Elements([]) == {};
    }
  }

  /** In every run, pruning at each completion has kept exactly the last 256 of
      the sorted list of all completions, and every turn still running. */
  lemma RetainedTurnsAreLastCompleted(states: seq<State>, ops: seq<Op>, i: nat)
    requires IsRun(states, ops) && i < |states|
    ensures var s := states[i];
      && TerminalKeys(s.turns) == Elements(Last(SortKeys(s.completions), TERMINAL_RETENTION_LIMIT))
      && (forall id :: id in s.logs && id !in s.turns ==> EndsTerminal(s.logs[id]))
  {
    var s := states[i];
    RunInv(states, ops, i);
    SortAscending(s.completions);
    LastIsTop(SortKeys(s.completions), TERMINAL_RETENTION_LIMIT);
    TopUnique(TerminalKeys(s.turns), Elements(Last(SortKeys(s.completions), TERMINAL_RETENTION_LIMIT)),
              Elements(s.completions), TERMINAL_RETENTION_LIMIT);
  }

  /** In every run, a retained turn's window is the last 256 events of its full
      log, numbered without gaps, counted by `event_count`; a terminal event is
      the last of its log and is there exactly when the status is terminal. */
  lemma RetainedEventsAreLogSuffix(states: seq<State>, ops: seq<Op>, i: nat, id: string)
    requires IsRun(states, ops) && i < |states| && id in states[i].turns
    ensures id in states[i].logs
    ensures var r, log := states[i].turns[id], states[i].logs[id];
      && r.recent == log[|log| - Min(RECENT_EVENT_LIMIT, |log|)..]
      && (forall j :: 0 <= j < |r.recent| ==> r.recent[j].seqNo == |log| - |r.recent| + j + 1)
      && r.snapshot.eventCount == r.nextSeq - 1 == |log|
      && (forall j :: 0 <= j < |log| ==> (log[j].terminal <==> j == |log| - 1 && r.snapshot.status.IsTerminal()))
  {
    RunInv(states, ops, i);
    hide IsRun;
    var s := states[i];
    assert LogInv(id, s.logs[id]) && RecordInv(id, s.turns[id], s.logs[id]) by {
      hide LogInv;
      hide RecordInv;
      hide CompletionsInv;
      hide RetentionInv;
    }
    hide Inv;
    WindowOfLog(id, s.turns[id], s.logs[id]);
  }

  lemma WindowOfLog(id: string, r: TurnRecord, log: seq<TurnEvent>)
    requires LogInv(id, log) && RecordInv(id, r, log)
    ensures r.recent == log[|log| - Min(RECENT_EVENT_LIMIT, |log|)..]
    ensures forall j :: 0 <= j < |r.recent| ==> r.recent[j].seqNo == |log| - |r.recent| + j + 1
    ensures r.snapshot.eventCount == r.nextSeq - 1 == |log|
    ensures forall j :: 0 <= j < |log| ==> (log[j].terminal <==> j == |log| - 1 && r.snapshot.status.IsTerminal())
  {
  }

  lemma LogGrowsStep(s: State, op: Op, s': State, id: string)
    requires Inv(s) && Next(s, op, s') && id in s.logs
    ensures id in s'.logs && s.logs[id] <= s'.logs[id]
    ensures EndsTerminal(s.logs[id]) ==> s'.logs[id] == s.logs[id]
  {
    hide MakeId;
    hide IsTop;
    hide Pruned;
    hide CompletionsInv;
    hide RetentionInv;
    hide LogsInv;
    hide Ended;
    hide Pushed;
    match op
    case Issue(_, _, random) => FreshId(s, random);
    case RuntimeEvent(i, _) =>
      if Mutable(s.turns, i) {
        MutableFacts(s, i);
      }
    case Complete(i, _, _) =>
      if Mutable(s.turns, i) {
        MutableFacts(s, i);
      }
  }

  /** Events are only ever appended to a turn's log, and an ended log is final. */
  lemma {:induction false} LogsGrow(states: seq<State>, ops: seq<Op>, i: nat, j: nat, id: string)
    requires IsRun(states, ops) && i <= j < |states| && id in states[i].logs
    ensures id in states[j].logs && states[i].logs[id] <= states[j].logs[id]
    ensures EndsTerminal(states[i].logs[id]) ==> states[j].logs[id] == states[i].logs[id]
    decreases j
  {
    if i < j {
      LogsGrow(states, ops, i, j - 1, id);
      RunInv(states, ops, j - 1);
      RunStep(states, ops, j - 1);
      hide IsRun;
      hide Inv;
      hide Next;
      hide EndsTerminal;
      LogGrowsStep(states[j - 1], ops[j - 1], states[j], id);
    }
  }

  // ------------------------------------------------------------------- paging

  function ClampLimit(limit: nat): nat
  {
    if limit < 1 then 1 else Min(limit, RECENT_EVENT_LIMIT)
  }

  /** The first `n` events numbered beyond `after`. */
  function FirstAfter(events: seq<TurnEvent>, after: nat, n: nat): seq<TurnEvent>
  {
    if events == [] || n == 0 then []
    else if events[0].seqNo > after then [events[0]] + FirstAfter(events[1..], after, n - 1)
    else FirstAfter(events[1..], after, n)
  }

  lemma FirstAfterFrom(events: seq<TurnEvent>, i: nat, after: nat, n: nat)
    requires i < |events| && n > 0
    ensures FirstAfter(events[i..], after, n) ==
      if events[i].seqNo > after then [events[i]] + FirstAfter(events[i + 1..], after, n - 1)
      else FirstAfter(events[i + 1..], after, n)
  {
    assert events[i..][1..] == events[i + 1..];
  }

  lemma FirstAfterNone(events: seq<TurnEvent>, after: nat, n: nat)
    requires events == [] || n == 0
    ensures FirstAfter(events, after, n) == []
  {
  }

  lemma {:induction false} FirstAfterSlice(events: seq<TurnEvent>, base: nat, after: nat, n: nat)
    requires forall i :: 0 <= i < |events| ==> events[i].seqNo == base + i + 1
    ensures FirstAfter(events, after, n) == Slice(events, if after <= base then 0 else after - base, n)
    decreases |events|
  {
    if events != [] && n > 0 {
      hide Slice;
      if base >= after {
        FirstAfterSlice(events[1..], base + 1, after, n - 1);
        SliceHead(events, n);
      } else {
        FirstAfterSlice(events[1..], base + 1, after, n);
        SliceTail(events, after - base, n);
      }
    }
  }

  /** Where a page starts in the full log: at the cursor, or at the window if the cursor is older. */
  function PageStart(log: seq<TurnEvent>, after: nat): nat
  {
    var window := |log| - Min(RECENT_EVENT_LIMIT, |log|);
    if after < window then window else after
  }

  /** A page is the part of the full log right after the cursor, exactly when the
      cursor is not older than the window; an older cursor skips to the window. */
  lemma PageIsLogSlice(id: string, r: TurnRecord, log: seq<TurnEvent>, after: nat, limit: nat)
    requires LogInv(id, log) && RecordInv(id, r, log)
    ensures FirstAfter(r.recent, after, ClampLimit(limit)) == Slice(log, PageStart(log, after), ClampLimit(limit))
  {
    var window := |log| - |r.recent|;
    assert r.recent == log[window..];
    FirstAfterSlice(r.recent, window, after, ClampLimit(limit));
    hide FirstAfter;
    hide ClampLimit;
    hide Slice;
    SliceOfSuffix(log, window, if after <= window then 0 else after - window, ClampLimit(limit));
  }

  /** A page holds what was asked for, at least one event, unless the log ends first. */
  lemma PageIsFull(id: string, r: TurnRecord, log: seq<TurnEvent>, after: nat, limit: nat)
    requires LogInv(id, log) && RecordInv(id, r, log)
    ensures var page := FirstAfter(r.recent, after, ClampLimit(limit));
      && |page| <= Max(1, limit) && |page| <= 256
      && (|page| < limit || page == [] ==> PageStart(log, after) + |page| >= |log|)
  {
    PageIsLogSlice(id, r, log, after, limit);
  }

  /** The last event seen after reading one page. */
  function NextCursor(r: TurnRecord, after: nat, limit: nat): nat
  {
    var page := FirstAfter(r.recent, after, ClampLimit(limit));
    if page == [] then after else page[|page| - 1].seqNo
  }

  /** Reading pages while the turn goes on: page `i` is taken from `records[i]`
      after the last event seen so far. */
  function Pages(records: seq<TurnRecord>, after: nat, limit: nat): seq<TurnEvent>
  {
    if records == [] then []
    else
      FirstAfter(records[0].recent, after, ClampLimit(limit)) +
      Pages(records[1..], NextCursor(records[0], after, limit), limit)
  }

  /** The cursor never falls out of a window while the pages are read. */
  predicate NeverOverrun(records: seq<TurnRecord>, after: nat, limit: nat)
  {
    records == [] ||
    (after + |records[0].recent| >= records[0].nextSeq - 1 &&
     NeverOverrun(records[1..], NextCursor(records[0], after, limit), limit))
  }

  /** `records` are successive states of one turn whose final log is `log`. */
  ghost predicate Successive(id: string, records: seq<TurnRecord>, log: seq<TurnEvent>)
  {
    forall i :: 0 <= i < |records| ==> AtSomePoint(id, records[i], log)
  }

  /** `r` was the turn's record when its log was some prefix of `log`. */
  ghost predicate AtSomePoint(id: string, r: TurnRecord, log: seq<TurnEvent>)
  {
    exists n :: 0 <= n <= |log| && RecordInv(id, r, log[..n])
  }

  lemma PageAdvances(id: string, r: TurnRecord, log: seq<TurnEvent>, n: nat, after: nat, limit: nat)
    requires LogInv(id, log) && n <= |log| && RecordInv(id, r, log[..n])
    requires after <= |log| && after + |r.recent| >= r.nextSeq - 1
    ensures var to := NextCursor(r, after, limit);
            after <= to <= |log| && FirstAfter(r.recent, after, ClampLimit(limit)) == log[after..to]
  {
    assert LogInv(id, log[..n]);
    PageIsLogSlice(id, r, log[..n], after, limit);
    hide FirstAfter;
    var page := FirstAfter(r.recent, after, ClampLimit(limit));
    assert page == log[after..after + |page|];
  }

  lemma SuccessiveHead(id: string, records: seq<TurnRecord>, log: seq<TurnEvent>) returns (n: nat)
    requires Successive(id, records, log) && records != []
    ensures n <= |log| && RecordInv(id, records[0], log[..n])
    ensures Successive(id, records[1..], log)
  {
    hide RecordInv;
    assert AtSomePoint(id, records[0], log);
    n :| 0 <= n <= |log| && RecordInv(id, records[0], log[..n]);
  }

  /** Paging by last-seen sequence number returns a contiguous stretch of the log
      from the cursor on: every event once, in order, however the turn moves on in between. */
  lemma {:induction false} PagesAreContiguous(id: string, records: seq<TurnRecord>, log: seq<TurnEvent>, after: nat, limit: nat)
    requires LogInv(id, log) && Successive(id, records, log) && NeverOverrun(records, after, limit)
    requires after <= |log|
    ensures var all := Pages(records, after, limit);
            after + |all| <= |log| && all == log[after..after + |all|]
    decreases |records|
  {
    hide FirstAfter;
    hide RecordInv;
    hide LogInv;
    hide Successive;
    hide NextCursor;
    if records != [] {
      var n := SuccessiveHead(id, records, log);
      var to := NextCursor(records[0], after, limit);
      PageAdvances(id, records[0], log, n, after, limit);
      PagesAreContiguous(id, records[1..], log, to, limit);
      SlicesJoin(log, after, to, to + |Pages(records[1..], to, limit)|);
    }
  }

  /** A page continues right after its cursor exactly when the cursor is not older than the window. */
  lemma PageHasNoGapExactly(id: string, r: TurnRecord, log: seq<TurnEvent>, after: nat, limit: nat)
    requires LogInv(id, log) && RecordInv(id, r, log) && after < |log|
    ensures var page := FirstAfter(r.recent, after, ClampLimit(limit));
            page != [] && (page[0].seqNo == after + 1 <==> after + |r.recent| >= |log|)
  {
    PageIsLogSlice(id, r, log, after, limit);
  }

  /** Records of one turn taken at points of a run are successive states of its log. */
  lemma RunRecordsAreSuccessive(states: seq<State>, ops: seq<Op>, points: seq<nat>, last: nat, id: string,
                                records: seq<TurnRecord>)
    requires IsRun(states, ops) && last < |states| && id in states[last].logs
    requires |points| == |records|
    requires forall i :: 0 <= i < |points| ==>
      points[i] <= last && id in states[points[i]].turns && records[i] == states[points[i]].turns[id]
    ensures LogInv(id, states[last].logs[id]) && Successive(id, records, states[last].logs[id])
  {
    RunInv(states, ops, last);
    forall i | 0 <= i < |points| ensures AtSomePoint(id, records[i], states[last].logs[id]) {
      RunInv(states, ops, points[i]);
      LogsGrow(states, ops, points[i], last, id);
      var n := |states[points[i]].logs[id]|;
      assert states[last].logs[id][..n] == states[points[i]].logs[id];
    }
  }

  /** A settled turn is read to its end: once a page comes back empty nothing is missing. */
  lemma EmptyPageMeansCaughtUp(id: string, r: TurnRecord, log: seq<TurnEvent>, after: nat, limit: nat)
    requires LogInv(id, log) && RecordInv(id, r, log)
    ensures FirstAfter(r.recent, after, ClampLimit(limit)) == [] <==> after >= |log|
  {
    PageIsLogSlice(id, r, log, after, limit);
  }
}

/** The registry as an object: its own fields, and the history they are proved against. */
module TurnRegistry {
  import opened Text
  import opened Identifiers
  import opened TopKeys
  import opened Windows
  import opened Turns

  class Registry {
    var nonce: nat
    var turns: map<string, TurnRecord>
    ghost var logs: map<string, seq<TurnEvent>>
    ghost var completions: seq<Key>

    ghost function State(): State
      reads this
    {
      Turns.State(nonce, turns, logs, completions)
    }

    ghost predicate Valid()
      reads this
    {
      Inv(State())
    }

    constructor ()
      ensures State() == EMPTY && Valid()
    {
      nonce, turns, logs, completions := 0, map[], map[], [];
      new;
      assert TerminalKeys(map[]) == {} && Elements([]) == {};
    }

    method IssueTurn(sessionId: string, now: nat, random: nat) returns (snapshot: Snapshot)
      requires Valid()
      modifies this
      ensures Valid() && Next(old(State()), Issue(sessionId, now, random), State())
      ensures snapshot.turnId !in old(turns) && snapshot.turnId in turns
      ensures turns[snapshot.turnId].snapshot == snapshot && snapshot.status == Running
    {
      hide LogInv;
      hide RecordInv;
      hide IssuedUpTo;
      hide CompletionsInv;
      hide RetentionInv;
      hide MakeId;
      ghost var before := State();
      FreshId(before, random);
      nonce := nonce + 1;
      var id := MakeId(TURN_PREFIX, nonce, random);
      snapshot := Snapshot(id, sessionId, Running, now, None, 0, None, None, None, None);
      turns := turns[id := TurnRecord(snapshot, [], 1)];
      logs := logs[id := []];
      StepInv(before, Issue(sessionId, now, random), State());
    }

    method ReadTurn(turnId: string) returns (snapshot: Option<Snapshot>)
      requires Valid()
      ensures snapshot.Some? <==> turnId in turns
      ensures snapshot.Some? ==> turnId in logs && snapshot.value == turns[turnId].snapshot
      ensures snapshot.Some? ==> snapshot.value.turnId == turnId && snapshot.value.eventCount == |logs[turnId]|
    {
      snapshot := if turnId in turns then Some(turns[turnId].snapshot) else None;
    }

    /** A page of events: the stretch of the turn's full log after the cursor. */
    method RecentEventsAfter(turnId: string, after: nat, limit: nat) returns (r: Result<seq<TurnEvent>, string>)
      requires Valid()
      ensures r.Ok? <==> turnId in turns
      ensures r.Err? ==> r.error == "control_plane_turn_not_found: `" + turnId + "`"
      ensures r.Ok? ==>
        turnId in logs && r.value == Slice(logs[turnId], PageStart(logs[turnId], after), ClampLimit(limit))
      ensures r.Ok? ==> |r.value| <= Max(1, limit) && |r.value| <= 256
      ensures r.Ok? && (|r.value| < limit || r.value == []) ==>
        PageStart(logs[turnId], after) + |r.value| >= |logs[turnId]|
    {
      if turnId !in turns {
        return Err("control_plane_turn_not_found: `" + turnId + "`");
      }
      var events := CollectAfter(turns[turnId].recent, after, ClampLimit(limit));
      PageIsLogSlice(turnId, turns[turnId], logs[turnId], after, limit);
      PageIsFull(turnId, turns[turnId], logs[turnId], after, limit);
      r := Ok(events);
    }

    static method CollectAfter(recent: seq<TurnEvent>, after: nat, bound: nat) returns (events: seq<TurnEvent>)
      ensures events == FirstAfter(recent, after, bound)
    {
      hide FirstAfter;
      events := [];
      var i := 0;
      assert recent[0..] == recent;
      while i < |recent| && |events| < bound
        invariant i <= |recent| && |events| <= bound
        invariant events + FirstAfter(recent[i..], after, bound - |events|) == FirstAfter(recent, after, bound)
      {
        FirstAfterFrom(recent, i, after, bound - |events|);
        if recent[i].seqNo > after {
          events := events + [recent[i]];
        }
        i := i + 1;
      }
      FirstAfterNone(recent[i..], after, bound - |events|);
    }

    method RecordRuntimeEvent(turnId: string, payload: Payload) returns (r: Result<TurnEvent, string>)
      requires Valid()
      modifies this
      ensures Valid() && Next(old(State()), RuntimeEvent(turnId, payload), State())
      ensures r.Ok? <==> Mutable(old(turns), turnId)
      ensures r.Err? && turnId in old(turns) ==> r.error == "control_plane_turn_already_terminal: `" + turnId + "`"
      ensures r.Err? && turnId !in old(turns) ==> r.error == "control_plane_turn_not_found: `" + turnId + "`"
      ensures r.Ok? ==> turnId in old(logs) && logs[turnId] == old(logs[turnId]) + [r.value] && !r.value.terminal
    {
      ghost var before := State();
      if turnId !in turns {
        return Err("control_plane_turn_not_found: `" + turnId + "`");
      }
      if turns[turnId].snapshot.status.IsTerminal() {
        return Err("control_plane_turn_already_terminal: `" + turnId + "`");
      }
      var record, event := PushEventLocked(turns[turnId], false, payload);
      turns := turns[turnId := record];
      logs := logs[turnId := logs[turnId] + [event]];
      StepInv(before, RuntimeEvent(turnId, payload), State());
      r := Ok(event);
    }

    method CompleteSuccess(turnId: string, now: nat, outputText: string, stopReason: Option<string>, usage: Option<string>)
        returns (r: Result<TurnEvent, string>)
      requires Valid()
      modifies this
      ensures Valid() && Next(old(State()), Complete(turnId, now, Success(outputText, stopReason, usage)), State())
      ensures r.Ok? <==> Mutable(old(turns), turnId)
      ensures r.Err? && turnId in old(turns) ==> r.error == "control_plane_turn_already_terminal: `" + turnId + "`"
      ensures r.Err? && turnId !in old(turns) ==> r.error == "control_plane_turn_not_found: `" + turnId + "`"
      ensures r.Ok? ==> turnId in old(logs) && logs[turnId] == old(logs[turnId]) + [r.value] && r.value.terminal
    {
      ghost var before := State();
      ghost var op := Complete(turnId, now, Success(outputText, stopReason, usage));
      var status := if stopReason == Some("cancelled") then Cancelled else Completed;
      if turnId !in turns {
        return Err("control_plane_turn_not_found: `" + turnId + "`");
      }
      if turns[turnId].snapshot.status.IsTerminal() {
        return Err("control_plane_turn_already_terminal: `" + turnId + "`");
      }
      var record := turns[turnId];
      record := record.(snapshot := record.snapshot.(
        status := status, completedAt := Some(now), outputText := Some(outputText),
        stopReason := stopReason, usage := usage, error := None));
      var event: TurnEvent;
      record, event := PushEventLocked(record, true, TurnCompleted(outputText, stopReason, usage));
      assert record == Ended(before.turns[turnId], now, op.ending);
      FinishTurn(turnId, record, event);
      StepInv(before, op, State());
      r := Ok(event);
    }

    method CompleteFailure(turnId: string, now: nat, error: string) returns (r: Result<TurnEvent, string>)
      requires Valid()
      modifies this
      ensures Valid() && Next(old(State()), Complete(turnId, now, Failure(error)), State())
      ensures r.Ok? <==> Mutable(old(turns), turnId)
      ensures r.Err? && turnId in old(turns) ==> r.error == "control_plane_turn_already_terminal: `" + turnId + "`"
      ensures r.Err? && turnId !in old(turns) ==> r.error == "control_plane_turn_not_found: `" + turnId + "`"
      ensures r.Ok? ==> turnId in old(logs) && logs[turnId] == old(logs[turnId]) + [r.value] && r.value.terminal
    {
      ghost var before := State();
      ghost var op := Complete(turnId, now, Failure(error));
      if turnId !in turns {
        return Err("control_plane_turn_not_found: `" + turnId + "`");
      }
      if turns[turnId].snapshot.status.IsTerminal() {
        return Err("control_plane_turn_already_terminal: `" + turnId + "`");
      }
      var record := turns[turnId];
      record := record.(snapshot := record.snapshot.(
        status := Failed, completedAt := Some(now), error := Some(error),
        outputText := None, stopReason := None, usage := None));
      var event: TurnEvent;
      record, event := PushEventLocked(record, true, TurnFailed(error));
      assert record == Ended(before.turns[turnId], now, op.ending);
      FinishTurn(turnId, record, event);
      StepInv(before, op, State());
      r := Ok(event);
    }

    /** Stores a terminal record, extends the history and prunes. */
    method FinishTurn(turnId: string, record: TurnRecord, event: TurnEvent)
      requires turnId in logs && record.snapshot.status.IsTerminal()
      modifies this
      ensures nonce == old(nonce) && logs == old(logs)[turnId := old(logs)[turnId] + [event]]
      ensures completions == old(completions) + [KeyOf(turnId, record)]
      ensures Pruned(old(turns)[turnId := record], turns)
    {
      turns := turns[turnId := record];
      logs := logs[turnId := logs[turnId] + [event]];
      completions := completions + [KeyOf(turnId, record)];
      PruneTerminalTurnsLocked();
    }

    method PushEventLocked(record: TurnRecord, terminal: bool, payload: Payload)
        returns (record': TurnRecord, event: TurnEvent)
      ensures event == NextEvent(record, terminal, payload) && record' == Pushed(record, terminal, payload)
    {
      event := TurnEvent(record.snapshot.turnId, record.snapshot.sessionId, record.nextSeq, terminal, payload);
      var recent := record.recent + [event];
      ghost var all := recent;
      while |recent| > RECENT_EVENT_LIMIT
        invariant Last(recent, RECENT_EVENT_LIMIT) == Last(all, RECENT_EVENT_LIMIT)
        decreases |recent|
      {
        recent := recent[1..];
      }
      record' := TurnRecord(record.snapshot.(eventCount := record.snapshot.eventCount + 1), recent, record.nextSeq + 1);
    }

    /** Counts the terminal turns, sorts them by key and removes the overflow from the front. */
    method PruneTerminalTurnsLocked()
      modifies this`turns
      ensures Pruned(old(turns), turns)
      ensures forall a, b :: HasEnded(turns, a) && HasEnded(old(turns), b) && b !in turns ==>
        EndedNoLater(b, old(turns)[b].snapshot, a, turns[a].snapshot)
    {
      hide EndedNoLater;
      hide IsTop;
      hide Ascending;
      hide Distinct;
      hide TerminalKeys;
      hide SortKeys;
      ghost var before := turns;
      var candidates := CollectCandidates();
      SortAscending(candidates);
      var sorted := SortKeys(candidates);
      LastIsTop(sorted, TERMINAL_RETENTION_LIMIT);
      if |sorted| <= TERMINAL_RETENTION_LIMIT {
        return;
      }
      hide Elements;
      var overflow := |sorted| - TERMINAL_RETENTION_LIMIT;
      for i := 0 to overflow
        invariant Without(before, turns, sorted[..i])
      {
        turns := turns - {sorted[i].id};
        assert sorted[..i + 1] == sorted[..i] + [sorted[i]];
      }
      RemainingKeys(before, turns, sorted, overflow);
      RemovedEndedNoLater(before, turns);
    }

    method CollectCandidates() returns (candidates: seq<Key>)
      ensures Distinct(candidates) && Elements(candidates) == TerminalKeys(turns)
    {
      candidates := [];
      var ids := turns.Keys;
      ghost var seen: set<string> := {};
      while ids != {}
        invariant ids + seen == turns.Keys && ids !! seen
        invariant Distinct(candidates)
        invariant forall k :: k in candidates <==>
          k.id in seen && turns[k.id].snapshot.status.IsTerminal() && k == KeyOf(k.id, turns[k.id])
        decreases ids
      {
        var id :| id in ids;
        if turns[id].snapshot.status.IsTerminal() {
          candidates := candidates + [KeyOf(id, turns[id])];
        }
        ids := ids - {id};
        seen := seen + {id};
      }
    }
  }

  predicate HasEnded(turns: map<string, TurnRecord>, id: string)
  {
    id in turns && turns[id].snapshot.status != Running && turns[id].snapshot.completedAt.Some?
  }

  /** Turn `b` ended before turn `a`; at the same clock value it was submitted
      first; at the same values again, its identifier comes first. */
  predicate EndedNoLater(b: string, t: Snapshot, a: string, u: Snapshot)
    requires t.completedAt.Some? && u.completedAt.Some?
  {
    && t.completedAt.value <= u.completedAt.value
    && (t.completedAt == u.completedAt ==> t.submittedAt <= u.submittedAt)
    && (t.completedAt == u.completedAt && t.submittedAt == u.submittedAt ==> Less(b, a))
  }

  /** A turn that pruning removed ended no later than any ended turn it kept. */
  lemma RemovedEndedNoLater(before: map<string, TurnRecord>, after: map<string, TurnRecord>)
    requires Pruned(before, after)
    ensures forall a, b :: HasEnded(after, a) && HasEnded(before, b) && b !in after ==>
      EndedNoLater(b, before[b].snapshot, a, after[a].snapshot)
  {
    forall a, b | HasEnded(after, a) && HasEnded(before, b) && b !in after
      ensures EndedNoLater(b, before[b].snapshot, a, after[a].snapshot)
    {
      var ka, kb := KeyOf(a, after[a]), KeyOf(b, before[b]);
      assert ka in TerminalKeys(after) && kb in TerminalKeys(before);
      assert kb !in TerminalKeys(after);
      assert KeyLess(kb, ka);
    }
  }

  /** `after` is `before` without the turns of `removed`. */
  ghost predicate Without(before: map<string, TurnRecord>, after: map<string, TurnRecord>, removed: seq<Key>)
  {
    && (forall id :: id in after <==> id in before && !CompletedId(removed, id))
    && (forall id :: id in after ==> after[id] == before[id])
  }

  /** Removing the turns of the first keys leaves those of the last keys, and every running turn. */
  lemma RemainingKeys(before: map<string, TurnRecord>, after: map<string, TurnRecord>, sorted: seq<Key>, n: nat)
    requires n <= |sorted| && Ascending(sorted) && Elements(sorted) == TerminalKeys(before)
    requires Without(before, after, sorted[..n])
    ensures TerminalKeys(after) == Elements(sorted[n..])
    ensures forall id :: id in before && before[id].snapshot.status == Running ==> id in after
  {
    forall m | 0 <= m < |sorted|
      ensures sorted[m].id in before && before[sorted[m].id].snapshot.status.IsTerminal()
      ensures sorted[m] == KeyOf(sorted[m].id, before[sorted[m].id])
      ensures CompletedId(sorted[..n], sorted[m].id) <==> m < n
    {
      assert sorted[m] in Elements(sorted);
      SortedIdsDistinct(before, sorted, n, m);
    }
    forall k | k in Elements(sorted[n..]) ensures k in TerminalKeys(after) {
      var m :| n <= m < |sorted| && sorted[m] == k;
    }
    forall k | k in TerminalKeys(after) ensures k in Elements(sorted[n..]) {
      assert k in TerminalKeys(before) && k in sorted;
      var m :| 0 <= m < |sorted| && sorted[m] == k;
      assert m >= n && sorted[n..][m - n] == k;
    }
  }

  lemma SortedIdsDistinct(before: map<string, TurnRecord>, sorted: seq<Key>, n: nat, m: nat)
    requires n <= |sorted| && m < |sorted| && Ascending(sorted) && Elements(sorted) == TerminalKeys(before)
    ensures CompletedId(sorted[..n], sorted[m].id) <==> m < n
  {
    if m < n {
      assert sorted[..n][m].id == sorted[m].id;
    }
    if j :| 0 <= j < n && sorted[..n][j].id == sorted[m].id {
      assert sorted[j] in Elements(sorted) && sorted[m] in Elements(sorted);
      assert sorted[j] == sorted[m];
      if m >= n {
        KeyLessTotal(sorted[j], sorted[m]);
      }
    }
  }
}
