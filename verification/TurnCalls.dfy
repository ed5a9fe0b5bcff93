/** What the turn registry holds, told by the calls made of it alone: which
    call issued a turn, which one ended it, what was recorded in between, and
    which ended turns are still there (crates/app/src/control_plane.rs). */
module TurnCalls {
  import opened Text
  import opened Identifiers
  import opened TopKeys
  import opened Windows
  import opened Turns

  function IssueCount(ops: seq<Op>): nat
  {
    if ops == [] then 0
    else IssueCount(ops[..|ops| - 1]) + if ops[|ops| - 1].Issue? then 1 else 0
  }

  /** Call `j` issued turn `id`. */
  predicate IssuedBy(ops: seq<Op>, id: string, j: nat)
  {
    && j < |ops| && ops[j].Issue?
    && id == MakeId("cpt-turn-", IssueCount(ops[..j]) + 1, ops[j].random)
  }

  predicate Completes(op: Op, id: string)
  {
    op.Complete? && op.turnId == id
  }

  /** Turn `id`, issued by call `j`, has not been completed by the calls before `i`. */
  predicate OpenUntil(ops: seq<Op>, id: string, j: nat, i: nat)
  {
    IssuedBy(ops, id, j) && j < i <= |ops| && forall m :: j < m < i ==> !Completes(ops[m], id)
  }

  /** Call `k` is the one that completed turn `id`, issued by call `j`. */
  predicate EndedBy(ops: seq<Op>, id: string, j: nat, k: nat)
  {
    OpenUntil(ops, id, j, k) && k < |ops| && Completes(ops[k], id)
  }

  /** The payloads recorded for `id` by some calls. */
  function RuntimePayloads(ops: seq<Op>, id: string): seq<Payload>
  {
    if ops == [] then []
    else
      var op := ops[|ops| - 1];
      RuntimePayloads(ops[..|ops| - 1], id) + if op.RuntimeEvent? && op.turnId == id then [op.payload] else []
  }

  /** `log` carries `payloads`, in order, all of them for session `sessionId`. */
  predicate Carries(log: seq<TurnEvent>, sessionId: string, payloads: seq<Payload>)
  {
    |log| == |payloads| && forall i :: 0 <= i < |log| ==> log[i].payload == payloads[i] && log[i].sessionId == sessionId
  }

  /** The record and log of a turn that is still open. */
  predicate ShowsOpen(s: State, id: string, issue: Op, payloads: seq<Payload>)
    requires issue.Issue?
  {
    && id in s.turns && id in s.logs
    && s.turns[id].snapshot
       == Snapshot(id, issue.sessionId, Running, issue.now, None, |payloads|, None, None, None, None)
    && Carries(s.logs[id], issue.sessionId, payloads)
  }

  /** The snapshot of an ended turn. */
  predicate ShowsEnding(t: Snapshot, id: string, issue: Op, end: Op, count: nat)
    requires issue.Issue? && end.Complete?
  {
    && t.turnId == id && t.sessionId == issue.sessionId
    && t.submittedAt == issue.now && t.completedAt == Some(end.now) && t.eventCount == count
    && match end.ending {
         case Success(text, reason, usage) =>
           && t.outputText == Some(text) && t.stopReason == reason && t.usage == usage && t.error == None
           && t.status == if reason == Some("cancelled") then Cancelled else Completed
         case Failure(error) =>
           && t.outputText == None && t.stopReason == None && t.usage == None && t.error == Some(error)
           && t.status == Failed
       }
  }

  /** What the last event of an ended turn says. */
  predicate SaysEnding(p: Payload, ending: Ending)
  {
    match ending
    case Success(text, reason, usage) => p == TurnCompleted(text, reason, usage)
    case Failure(error) => p == TurnFailed(error)
  }

  /** Turn `id` ended: its log is final, and its record, if still there, shows how. */
  predicate ShowsEnded(s: State, id: string, issue: Op, end: Op, payloads: seq<Payload>)
    requires issue.Issue? && end.Complete?
  {
    && id in s.logs && |s.logs[id]| == |payloads| + 1
    && Carries(s.logs[id][..|payloads|], issue.sessionId, payloads)
    && s.logs[id][|payloads|].sessionId == issue.sessionId
    && SaysEnding(s.logs[id][|payloads|].payload, end.ending)
    && (id in s.turns ==> ShowsEnding(s.turns[id].snapshot, id, issue, end, |payloads| + 1))
    && Key(end.now, issue.now, id) in s.completions
  }

  // ------------------------------------------------------------------- proofs

  lemma {:induction false} NonceCountsIssues(states: seq<State>, ops: seq<Op>, i: nat)
    requires IsRun(states, ops) && i < |states|
    ensures states[i].nonce == IssueCount(ops[..i])
    decreases i
  {
    if i > 0 {
      NonceCountsIssues(states, ops, i - 1);
      RunStep(states, ops, i - 1);
      assert ops[..i][..i - 1] == ops[..i - 1];
      hide MakeId;
      hide Ended;
      hide Pushed;
      hide Pruned;
    }
  }

  lemma OpenAfterIssue(s: State, op: Op, s': State, id: string)
    requires op.Issue? && Next(s, op, s') && id == MakeId(TURN_PREFIX, s.nonce + 1, op.random)
    ensures ShowsOpen(s', id, op, [])
  {
    hide MakeId;
  }

  lemma StaysOpen(s: State, op: Op, s': State, id: string, issue: Op, payloads: seq<Payload>)
    requires issue.Issue? && Inv(s) && Next(s, op, s') && ShowsOpen(s, id, issue, payloads) && !Completes(op, id)
    ensures ShowsOpen(s', id, issue,
                      payloads + if op.RuntimeEvent? && op.turnId == id then [op.payload] else [])
  {
    hide LogInv;
    hide CompletionsInv;
    hide RetentionInv;
    hide IsTop;
    hide MakeId;
    hide Ended;
    if op.Issue? {
      FreshId(s, op.random);
    }
  }

  lemma EndsOpen(s: State, op: Op, s': State, id: string, issue: Op, payloads: seq<Payload>)
    requires issue.Issue? && Inv(s) && Next(s, op, s') && ShowsOpen(s, id, issue, payloads) && Completes(op, id)
    ensures ShowsEnded(s', id, issue, op, payloads)
  {
    hide Inv;
    hide IsTop;
    var n := |payloads|;
    assert s'.logs[id] == s.logs[id] + [NextEvent(s.turns[id], true, EndingPayload(op.ending))];
    assert s'.logs[id][..n] == s.logs[id];
    var k := KeyOf(id, Ended(s.turns[id], op.now, op.ending));
    assert s'.completions[|s.completions|] == k;
  }

  lemma StaysEnded(s: State, op: Op, s': State, id: string, issue: Op, end: Op, payloads: seq<Payload>)
    requires issue.Issue? && end.Complete? && Inv(s) && Next(s, op, s') && ShowsEnded(s, id, issue, end, payloads)
    requires EndsTerminal(s.logs[id])
    ensures ShowsEnded(s', id, issue, end, payloads) && EndsTerminal(s'.logs[id])
  {
    LogGrowsStep(s, op, s', id);
    if id in s'.turns {
      EndedRecordStays(s, op, s', id);
    }
    CompletionsGrow(s, op, s');
    hide Inv;
    hide Next;
    hide ShowsEnding;
    hide SaysEnding;
    hide Carries;
  }

  lemma CompletionsGrow(s: State, op: Op, s': State)
    requires Next(s, op, s')
    ensures s.completions <= s'.completions
  {
    hide MakeId;
    hide Ended;
    hide Pushed;
    hide Pruned;
  }

  /** The record of an ended turn never changes; it can only go. */
  lemma EndedRecordStays(s: State, op: Op, s': State, id: string)
    requires Inv(s) && Next(s, op, s') && id in s.logs && EndsTerminal(s.logs[id]) && id in s'.turns
    ensures id in s.turns && s'.turns[id] == s.turns[id]
  {
    hide LogInv;
    hide CompletionsInv;
    hide RetentionInv;
    hide IsTop;
    hide MakeId;
    hide Ended;
    hide Pushed;
    hide EndsTerminal;
    if op.Issue? {
      FreshId(s, op.random);
    }
  }

  /** In every run, a turn not completed since it was issued is there, running,
      with the session and clock of its issue, and its log carries exactly the
      payloads recorded for it, in order. */
  lemma {:induction false} OpenTurnFromCalls(states: seq<State>, ops: seq<Op>, id: string, j: nat, i: nat)
    requires IsRun(states, ops) && OpenUntil(ops, id, j, i)
    ensures ShowsOpen(states[i], id, ops[j], RuntimePayloads(ops[j + 1..i], id))
    decreases i
  {
    hide IsRun;
    hide ShowsOpen;
    hide RuntimePayloads;
    hide IssueCount;
    hide MakeId;
    if i == j + 1 {
      OpenAtFirst(states, ops, id, j);
    } else {
      OpenTurnFromCalls(states, ops, id, j, i - 1);
      OpenOneMore(states, ops, id, j, i - 1);
    }
  }

  lemma OpenAtFirst(states: seq<State>, ops: seq<Op>, id: string, j: nat)
    requires IsRun(states, ops) && IssuedBy(ops, id, j)
    ensures ShowsOpen(states[j + 1], id, ops[j], RuntimePayloads(ops[j + 1..j + 1], id))
  {
    RunStep(states, ops, j);
    NonceCountsIssues(states, ops, j);
    hide IsRun;
    hide Next;
    hide IssueCount;
    hide MakeId;
    OpenAfterIssue(states[j], ops[j], states[j + 1], id);
    assert ops[j + 1..j + 1] == [];
  }

  lemma OpenOneMore(states: seq<State>, ops: seq<Op>, id: string, j: nat, i: nat)
    requires IsRun(states, ops) && j < i < |ops| && ops[j].Issue? && !Completes(ops[i], id)
    requires ShowsOpen(states[i], id, ops[j], RuntimePayloads(ops[j + 1..i], id))
    ensures ShowsOpen(states[i + 1], id, ops[j], RuntimePayloads(ops[j + 1..i + 1], id))
  {
    hide IsRun;
    hide Next;
    hide Inv;
    hide ShowsOpen;
    hide RuntimePayloads;
    RunStep(states, ops, i);
    RunInv(states, ops, i);
    PayloadsGrow(ops, j + 1, i, id);
    StaysOpen(states[i], ops[i], states[i + 1], id, ops[j], RuntimePayloads(ops[j + 1..i], id));
  }

  lemma PayloadsGrow(ops: seq<Op>, from: nat, i: nat, id: string)
    requires from <= i < |ops|
    ensures RuntimePayloads(ops[from..i + 1], id) == RuntimePayloads(ops[from..i], id) +
              if ops[i].RuntimeEvent? && ops[i].turnId == id then [ops[i].payload] else []
  {
    assert ops[from..i + 1][..i - from] == ops[from..i];
  }

  lemma {:induction false} EndedStateFromCalls(states: seq<State>, ops: seq<Op>, id: string, j: nat, k: nat, i: nat)
    requires IsRun(states, ops) && EndedBy(ops, id, j, k) && k < i < |states|
    ensures ShowsEnded(states[i], id, ops[j], ops[k], RuntimePayloads(ops[j + 1..k], id))
    ensures EndsTerminal(states[i].logs[id])
    decreases i
  {
    hide RuntimePayloads;
    hide ShowsEnded;
    hide EndsTerminal;
    hide MakeId;
    hide IssueCount;
    hide Inv;
    hide Next;
    if i == k + 1 {
      EndedAtFirst(states, ops, id, j, k);
    } else {
      EndedStateFromCalls(states, ops, id, j, k, i - 1);
      RunStep(states, ops, i - 1);
      RunInv(states, ops, i - 1);
      hide IsRun;
      StaysEnded(states[i - 1], ops[i - 1], states[i], id, ops[j], ops[k], RuntimePayloads(ops[j + 1..k], id));
    }
  }

  lemma EndedAtFirst(states: seq<State>, ops: seq<Op>, id: string, j: nat, k: nat)
    requires IsRun(states, ops) && EndedBy(ops, id, j, k)
    ensures ShowsEnded(states[k + 1], id, ops[j], ops[k], RuntimePayloads(ops[j + 1..k], id))
    ensures EndsTerminal(states[k + 1].logs[id])
  {
    OpenTurnFromCalls(states, ops, id, j, k);
    RunStep(states, ops, k);
    RunInv(states, ops, k);
    hide IsRun;
    hide Inv;
    hide Next;
    hide ShowsEnded;
    hide EndsTerminal;
    hide Carries;
    hide IssuedBy;
    hide RuntimePayloads;
    EndsOpen(states[k], ops[k], states[k + 1], id, ops[j], RuntimePayloads(ops[j + 1..k], id));
    EndedIsTerminal(states[k], ops[k], states[k + 1], id);
  }

  lemma EndedIsTerminal(s: State, op: Op, s': State, id: string)
    requires Completes(op, id) && Mutable(s.turns, id) && Next(s, op, s')
    ensures id in s'.logs && EndsTerminal(s'.logs[id])
  {
    hide Ended;
    hide Pruned;
  }

  /** In every run, a turn's log is final once it is completed: the payloads
      recorded while it was open, then how it ended; and its record, as long as
      it is there, shows the session and clock of its issue and the clock,
      status and outcome of the call that completed it. */
  lemma EndedTurnFromCalls(states: seq<State>, ops: seq<Op>, id: string, j: nat, k: nat, i: nat)
    requires IsRun(states, ops) && EndedBy(ops, id, j, k) && k < i < |states|
    ensures ShowsEnded(states[i], id, ops[j], ops[k], RuntimePayloads(ops[j + 1..k], id))
  {
    EndedStateFromCalls(states, ops, id, j, k, i);
  }

  /** `a` comes before `b`: it is a proper prefix, or smaller where they first differ. */
  ghost predicate Precedes(a: string, b: string)
  {
    exists n: nat :: DifferAt(a, b, n)
  }

  ghost predicate DifferAt(a: string, b: string, n: nat)
  {
    && n <= |a| && n < |b| && a[..n] == b[..n]
    && (n == |a| || a[n] < b[n])
  }

  lemma {:induction false} LessPrecedes(a: string, b: string)
    requires Less(a, b)
    ensures Precedes(a, b)
  {
    if a == "" || a[0] < b[0] {
      assert DifferAt(a, b, 0);
    } else {
      LessPrecedes(a[1..], b[1..]);
      var n: nat :| DifferAt(a[1..], b[1..], n);
      assert a[..n + 1] == [a[0]] + a[1..][..n] && b[..n + 1] == [b[0]] + b[1..][..n];
      assert DifferAt(a, b, n + 1);
    }
  }

  /** In every run, of two completed turns of which one has gone and one is
      still there, the one that has gone was completed earlier; at the same
      clock value, it was issued earlier; at the same values again, its
      identifier comes first. */
  lemma DroppedBeforeRetained(states: seq<State>, ops: seq<Op>, i: nat,
                              a: string, ja: nat, ka: nat, b: string, jb: nat, kb: nat)
    requires IsRun(states, ops) && i < |states|
    requires EndedBy(ops, a, ja, ka) && ka < i && EndedBy(ops, b, jb, kb) && kb < i
    requires a in states[i].turns && b !in states[i].turns
    ensures ops[kb].now <= ops[ka].now
    ensures ops[kb].now == ops[ka].now ==> ops[jb].now <= ops[ja].now
    ensures ops[kb].now == ops[ka].now && ops[jb].now == ops[ja].now ==> Precedes(b, a)
  {
    EndedStateFromCalls(states, ops, a, ja, ka, i);
    EndedStateFromCalls(states, ops, b, jb, kb, i);
    RunInv(states, ops, i);
    var s := states[i];
    DroppedKeyBelow(s, a, ops[ja], ops[ka], |RuntimePayloads(ops[ja + 1..ka], a)| + 1, b, Key(ops[kb].now, ops[jb].now, b));
    if ops[kb].now == ops[ka].now && ops[jb].now == ops[ja].now {
      LessPrecedes(b, a);
    }
  }

  lemma DroppedKeyBelow(s: State, a: string, issue: Op, end: Op, count: nat, b: string, kb: Key)
    requires issue.Issue? && end.Complete?
    requires Inv(s) && a in s.turns && ShowsEnding(s.turns[a].snapshot, a, issue, end, count)
    requires kb in s.completions && kb.id == b && b !in s.turns
    ensures KeyLess(kb, Key(end.now, issue.now, a))
  {
    hide LogsInv;
    hide CompletionsInv;
    hide KeyLess;
    hide Elements;
    var k := KeyOf(a, s.turns[a]);
    assert k == Key(end.now, issue.now, a) && k in TerminalKeys(s.turns);
    assert kb !in TerminalKeys(s.turns);
    InElements(s.completions, kb);
  }

  lemma InElements(s: seq<Key>, k: Key)
    requires k in s
    ensures k in Elements(s)
  {
  }

  /** The identifiers of the ended turns still there. */
  function EndedIds(turns: map<string, TurnRecord>): set<string>
  {
    set id | id in turns && turns[id].snapshot.status != Running
  }

  /** In every run at most 256 ended turns are kept. */
  lemma KeepsAtMostTheLimit(states: seq<State>, ops: seq<Op>, i: nat)
    requires IsRun(states, ops) && i < |states|
    ensures |EndedIds(states[i].turns)| <= 256
  {
    RunInv(states, ops, i);
    EndedIdsCount(states[i].turns);
    hide IsRun;
    hide LogsInv;
    hide CompletionsInv;
    hide TerminalKeys;
    hide EndedIds;
  }

  /** In every run, once a completed turn has gone exactly 256 are kept. */
  lemma DropsOnlyBeyondTheLimit(states: seq<State>, ops: seq<Op>, i: nat, id: string, j: nat, k: nat)
    requires IsRun(states, ops) && i < |states|
    requires EndedBy(ops, id, j, k) && k < i && id !in states[i].turns
    ensures |EndedIds(states[i].turns)| == 256
  {
    var s := states[i];
    EndedStateFromCalls(states, ops, id, j, k, i);
    RunInv(states, ops, i);
    EndedIdsCount(s.turns);
    var key := Key(ops[k].now, ops[j].now, id);
    assert key !in TerminalKeys(s.turns);
    hide IsRun;
    hide LogsInv;
    hide CompletionsInv;
    hide TerminalKeys;
    hide EndedIds;
    hide Carries;
    hide ShowsEnding;
    hide IssuedBy;
    hide RuntimePayloads;
    InElements(s.completions, key);
    SubsetSize(TerminalKeys(s.turns), Elements(s.completions));
  }

  lemma EndedIdsCount(turns: map<string, TurnRecord>)
    ensures |EndedIds(turns)| == |TerminalKeys(turns)|
  {
    CountByKey(turns, EndedIds(turns));
    assert TerminalKeys(turns) == KeysOf(turns, EndedIds(turns));
  }

  function KeysOf(turns: map<string, TurnRecord>, ids: set<string>): set<Key>
    requires ids <= turns.Keys
  {
    set id | id in ids :: KeyOf(id, turns[id])
  }

  lemma {:induction false} CountByKey(turns: map<string, TurnRecord>, ids: set<string>)
    requires ids <= turns.Keys
    ensures |KeysOf(turns, ids)| == |ids|
    decreases |ids|
  {
    if ids == {} {
      assert KeysOf(turns, ids) == {};
    } else {
      var id :| id in ids;
      CountByKey(turns, ids - {id});
      assert KeysOf(turns, ids) == KeysOf(turns, ids - {id}) + {KeyOf(id, turns[id])};
      assert KeyOf(id, turns[id]) !in KeysOf(turns, ids - {id});
    }
  }
}
