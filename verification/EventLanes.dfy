/** What the event manager's counters and events say of the calls made, in every
    interleaving (crates/app/src/control_plane.rs): each lane's version counts
    the bumps of that lane, and an event carries the fields of its call and
    versions read while the call was under way. */
module EventLanes {
  import opened EventPlane
  import opened Windows

  /** The bumps of a lane among some steps. */
  function Bumps(steps: seq<Step>, lane: Lane): nat
  {
    if steps == [] then 0
    else
      var step := steps[|steps| - 1];
      Bumps(steps[..|steps| - 1], lane) + if step.BumpVersion? && step.call.lane == lane then 1 else 0
  }

  /** The sequence numbers taken in some steps. */
  function Takes(steps: seq<Step>): nat
  {
    if steps == [] then 0
    else Takes(steps[..|steps| - 1]) + if steps[|steps| - 1].TakeSeq? then 1 else 0
  }

  predicate Records(s: State, step: Step, lane: Lane)
  {
    step.PushEvent? && step.caller in s.callers && s.callers[step.caller].call.lane == lane
  }

  /** The events of a lane recorded by the first `k` steps of a run. */
  function Recorded(states: seq<State>, steps: seq<Step>, k: nat, lane: Lane): nat
    requires |states| == |steps| + 1 && k <= |steps|
  {
    if k == 0 then 0
    else Recorded(states, steps, k - 1, lane) + if Records(states[k - 1], steps[k - 1], lane) then 1 else 0
  }

  /** The calls of a lane under way. */
  function Underway(callers: map<nat, Caller>, lane: Lane): set<nat>
  {
    set c | c in callers && callers[c].call.lane == lane
  }

  lemma BumpsOneMore(steps: seq<Step>, k: nat, lane: Lane)
    requires k < |steps|
    ensures Bumps(steps[..k + 1], lane) ==
            Bumps(steps[..k], lane) + if steps[k].BumpVersion? && steps[k].call.lane == lane then 1 else 0
  {
    assert steps[..k + 1][..k] == steps[..k];
  }

  lemma RunStepTaken(states: seq<State>, steps: seq<Step>, k: nat)
    requires IsRun(states, steps) && k < |steps|
    ensures Taken(states[k], steps[k], states[k + 1])
  {
    hide Taken;
  }

  /** Each lane's version raised by one step: only by a bump of that lane. */
  predicate RaisedBy(before: seq<nat>, step: Step, after: seq<nat>)
  {
    && |before| == |after| == 5
    && after[0] == before[0] + (if step.BumpVersion? && step.call.lane.Presence? then 1 else 0)
    && after[1] == before[1] + (if step.BumpVersion? && step.call.lane.Health? then 1 else 0)
    && after[2] == before[2] + (if step.BumpVersion? && step.call.lane.Sessions? then 1 else 0)
    && after[3] == before[3] + (if step.BumpVersion? && step.call.lane.Approvals? then 1 else 0)
    && after[4] == before[4] + (if step.BumpVersion? && step.call.lane.Acp? then 1 else 0)
  }

  lemma StepRaises(s: State, step: Step, s': State)
    requires Taken(s, step, s')
    ensures RaisedBy(s.versions, step, s'.versions)
  {
    hide Page;
  }

  /** In every interleaving a lane's version is the number of its bumps so far. */
  lemma {:induction false} VersionsCountBumps(states: seq<State>, steps: seq<Step>, k: nat)
    requires IsRun(states, steps) && k < |states|
    ensures states[k].versions == [
      Bumps(steps[..k], Presence), Bumps(steps[..k], Health), Bumps(steps[..k], Sessions),
      Bumps(steps[..k], Approvals), Bumps(steps[..k], Acp)]
    decreases k
  {
    if k > 0 {
      VersionsCountBumps(states, steps, k - 1);
      RunStepTaken(states, steps, k - 1);
      OneMoreCounted(states[k - 1], steps, k - 1, states[k]);
    } else {
      assert steps[..0] == [];
    }
  }

  lemma OneMoreCounted(s: State, steps: seq<Step>, k: nat, s': State)
    requires k < |steps| && Taken(s, steps[k], s')
    requires s.versions == [
      Bumps(steps[..k], Presence), Bumps(steps[..k], Health), Bumps(steps[..k], Sessions),
      Bumps(steps[..k], Approvals), Bumps(steps[..k], Acp)]
    ensures s'.versions == [
      Bumps(steps[..k + 1], Presence), Bumps(steps[..k + 1], Health), Bumps(steps[..k + 1], Sessions),
      Bumps(steps[..k + 1], Approvals), Bumps(steps[..k + 1], Acp)]
  {
    hide Taken;
    hide Bumps;
    StepRaises(s, steps[k], s');
    BumpsOneMore(steps, k, Presence);
    BumpsOneMore(steps, k, Health);
    BumpsOneMore(steps, k, Sessions);
    BumpsOneMore(steps, k, Approvals);
    BumpsOneMore(steps, k, Acp);
  }

  lemma UnderwayStep(s: State, step: Step, s': State, lane: Lane)
    requires Taken(s, step, s')
    ensures |Underway(s'.callers, lane)| + (if Records(s, step, lane) then 1 else 0) ==
            |Underway(s.callers, lane)| + if step.BumpVersion? && step.call.lane == lane then 1 else 0
  {
    hide Page;
    hide Underway;
    match step
    case BumpVersion(c, call) => UnderwayAdded(s.callers, c, Bumped(call), lane);
    case TakeSeq(c) => UnderwayChanged(s.callers, c, s'.callers[c], lane);
    case LoadVersion(c) => UnderwayChanged(s.callers, c, s'.callers[c], lane);
    case PushEvent(c) => UnderwayRemoved(s.callers, c, lane);
    case StartWait(_, _) =>
    case Arm(_) =>
    case Check(_) =>
    case Wake(_) =>
    case Expire(_) =>
  }

  lemma UnderwayAdded(callers: map<nat, Caller>, c: nat, caller: Caller, lane: Lane)
    requires c !in callers
    ensures |Underway(callers[c := caller], lane)| == |Underway(callers, lane)| + if caller.call.lane == lane then 1 else 0
  {
    assert Underway(callers[c := caller], lane) == Underway(callers, lane) + if caller.call.lane == lane then {c} else {};
  }

  lemma UnderwayChanged(callers: map<nat, Caller>, c: nat, caller: Caller, lane: Lane)
    requires c in callers && caller.call == callers[c].call
    ensures Underway(callers[c := caller], lane) == Underway(callers, lane)
  {
  }

  lemma UnderwayRemoved(callers: map<nat, Caller>, c: nat, lane: Lane)
    requires c in callers
    ensures |Underway(callers - {c}, lane)| + (if callers[c].call.lane == lane then 1 else 0) == |Underway(callers, lane)|
  {
    if callers[c].call.lane == lane {
      assert Underway(callers, lane) == Underway(callers - {c}, lane) + {c};
    } else {
      assert Underway(callers, lane) == Underway(callers - {c}, lane);
    }
  }

  /** In every interleaving, a lane's bumps are its recorded events and its calls under way. */
  lemma {:induction false} BumpsAreRecordedOrUnderway(states: seq<State>, steps: seq<Step>, k: nat, lane: Lane)
    requires IsRun(states, steps) && k < |states|
    ensures Bumps(steps[..k], lane) == Recorded(states, steps, k, lane) + |Underway(states[k].callers, lane)|
    decreases k
  {
    if k > 0 {
      BumpsAreRecordedOrUnderway(states, steps, k - 1, lane);
      RunStepTaken(states, steps, k - 1);
      UnderwayStep(states[k - 1], steps[k - 1], states[k], lane);
      BumpsOneMore(steps, k - 1, lane);
      hide IsRun;
      hide Taken;
      hide Bumps;
      hide Underway;
    } else {
      assert steps[..0] == [];
    }
  }

  /** Whenever no call is under way, each lane's version is the number of its recorded events. */
  lemma QuiescentVersions(states: seq<State>, steps: seq<Step>, k: nat)
    requires IsRun(states, steps) && k < |states| && states[k].callers == map[]
    ensures states[k].versions == [
      Recorded(states, steps, k, Presence), Recorded(states, steps, k, Health), Recorded(states, steps, k, Sessions),
      Recorded(states, steps, k, Approvals), Recorded(states, steps, k, Acp)]
  {
    VersionsCountBumps(states, steps, k);
    forall lane ensures Bumps(steps[..k], lane) == Recorded(states, steps, k, lane) {
      BumpsAreRecordedOrUnderway(states, steps, k, lane);
      assert Underway(states[k].callers, lane) == {};
    }
    hide IsRun;
    hide Bumps;
    hide Recorded;
  }

  // ------------------------------------------------------- what an event says

  lemma {:induction false} SeqNoCountsTakes(states: seq<State>, steps: seq<Step>, k: nat)
    requires IsRun(states, steps) && k < |states|
    ensures states[k].seqNo == Takes(steps[..k])
    decreases k
  {
    if k > 0 {
      SeqNoCountsTakes(states, steps, k - 1);
      RunStepTaken(states, steps, k - 1);
      assert steps[..k][..k - 1] == steps[..k - 1];
      hide IsRun;
      hide Page;
    } else {
      assert steps[..0] == [];
    }
  }

  /** Step `j` begins a call of `c` that step `k` is still part of. */
  predicate UnderwaySince(steps: seq<Step>, c: nat, j: nat, k: nat)
  {
    && j < k <= |steps| && steps[j].BumpVersion? && steps[j].caller == c
    && forall m :: j < m < k ==> steps[m] != PushEvent(c)
  }

  /** Step `t` takes the number of the call. */
  predicate TakenAt(steps: seq<Step>, c: nat, j: nat, t: nat)
  {
    UnderwaySince(steps, c, j, t) && t < |steps| && steps[t] == TakeSeq(c)
  }

  /** `c` is making `call`, and the versions it has loaded are no older than `low` and no newer than `high`. */
  ghost predicate Making(callers: map<nat, Caller>, c: nat, call: Call, low: seq<nat>, high: seq<nat>)
  {
    && c in callers && callers[c].call == call
    && (callers[c].Sequenced? ==> Between(low, callers[c].loaded, high))
  }

  predicate Between(low: seq<nat>, loaded: seq<nat>, high: seq<nat>)
  {
    |loaded| <= |low| == |high| && forall i :: 0 <= i < |loaded| ==> low[i] <= loaded[i] <= high[i]
  }

  predicate NoneSmaller(low: seq<nat>, high: seq<nat>)
  {
    |low| == |high| && forall i :: 0 <= i < |low| ==> low[i] <= high[i]
  }

  lemma MakingStep(s: State, step: Step, s': State, c: nat, call: Call, low: seq<nat>)
    requires Taken(s, step, s') && Making(s.callers, c, call, low, s.versions) && step != PushEvent(c)
    requires NoneSmaller(low, s.versions)
    ensures Making(s'.callers, c, call, low, s'.versions) && NoneSmaller(low, s'.versions)
  {
    hide Page;
    StepRaises(s, step, s');
    assert NoneSmaller(s.versions, s'.versions);
  }

  lemma MakingStarts(s: State, step: Step, s': State)
    requires Taken(s, step, s') && step.BumpVersion?
    ensures Making(s'.callers, step.caller, step.call, s'.versions, s'.versions)
  {
  }

  lemma {:induction false} CallUnderway(states: seq<State>, steps: seq<Step>, c: nat, j: nat, k: nat)
    requires IsRun(states, steps) && UnderwaySince(steps, c, j, k)
    ensures Making(states[k].callers, c, steps[j].call, states[j + 1].versions, states[k].versions)
    ensures NoneSmaller(states[j + 1].versions, states[k].versions)
    decreases k
  {
    RunStepTaken(states, steps, k - 1);
    if k == j + 1 {
      MakingStarts(states[j], steps[j], states[k]);
    } else {
      CallUnderway(states, steps, c, j, k - 1);
      hide IsRun;
      hide Taken;
      hide Making;
      hide NoneSmaller;
      MakingStep(states[k - 1], steps[k - 1], states[k], c, steps[j].call, states[j + 1].versions);
    }
  }

  lemma NumberKept(s: State, step: Step, s': State, c: nat, n: nat)
    requires Taken(s, step, s') && c in s.callers && s.callers[c].Sequenced? && s.callers[c].seqNo == n
    requires step != PushEvent(c)
    ensures c in s'.callers && s'.callers[c].Sequenced? && s'.callers[c].seqNo == n
  {
    hide Page;
  }

  lemma {:induction false} NumberHeld(states: seq<State>, steps: seq<Step>, c: nat, j: nat, t: nat, k: nat)
    requires IsRun(states, steps) && UnderwaySince(steps, c, j, k) && TakenAt(steps, c, j, t) && t < k
    ensures c in states[k].callers && states[k].callers[c].Sequenced?
    ensures states[k].callers[c].seqNo == Takes(steps[..t]) + 1
    decreases k
  {
    RunStepTaken(states, steps, k - 1);
    if k == t + 1 {
      SeqNoCountsTakes(states, steps, t);
    } else {
      NumberHeld(states, steps, c, j, t, k - 1);
      hide IsRun;
      hide Taken;
      NumberKept(states[k - 1], steps[k - 1], states[k], c, Takes(steps[..t]) + 1);
    }
  }

  /** In every interleaving, the event a call pushes has the call's kind, payload
      and targeting, the number the call took, and for each lane a version between
      that lane's bumps when the call began, its own included, and those when it pushed. */
  lemma PushedEventOfCall(states: seq<State>, steps: seq<Step>, c: nat, j: nat, t: nat, k: nat)
    requires IsRun(states, steps) && UnderwaySince(steps, c, j, k) && TakenAt(steps, c, j, t) && t < k
    requires k < |steps| && steps[k] == PushEvent(c)
    ensures |states[k + 1].sent| == |states[k].sent| + 1 && states[k].sent < states[k + 1].sent
    ensures var e := states[k + 1].sent[|states[k].sent|];
      && e.kind == steps[j].call.kind && e.payload == steps[j].call.payload && e.targeted == steps[j].call.targeted
      && e.seqNo == Takes(steps[..t]) + 1
      && |e.versions| == 5
      && Bumps(steps[..j + 1], Presence) <= e.versions[0] <= Bumps(steps[..k], Presence)
      && Bumps(steps[..j + 1], Health) <= e.versions[1] <= Bumps(steps[..k], Health)
      && Bumps(steps[..j + 1], Sessions) <= e.versions[2] <= Bumps(steps[..k], Sessions)
      && Bumps(steps[..j + 1], Approvals) <= e.versions[3] <= Bumps(steps[..k], Approvals)
      && Bumps(steps[..j + 1], Acp) <= e.versions[4] <= Bumps(steps[..k], Acp)
  {
    hide Bumps;
    hide Takes;
    hide Making;
    RunStepTaken(states, steps, k);
    VersionsCountBumps(states, steps, j + 1);
    VersionsCountBumps(states, steps, k);
    CallUnderway(states, steps, c, j, k);
    NumberHeld(states, steps, c, j, t, k);
    PushedFields(states[k], c, states[k + 1], steps[j].call, states[j + 1].versions, Takes(steps[..t]) + 1);
  }

  lemma PushedFields(s: State, c: nat, s': State, call: Call, low: seq<nat>, n: nat)
    requires Taken(s, PushEvent(c), s') && Making(s.callers, c, call, low, s.versions) && s.callers[c].seqNo == n
    ensures |s'.sent| == |s.sent| + 1 && s.sent < s'.sent
    ensures var e := s'.sent[|s.sent|];
      && e.kind == call.kind && e.payload == call.payload && e.targeted == call.targeted && e.seqNo == n
      && |e.versions| == |low| == |s.versions| == 5
      && forall i :: 0 <= i < 5 ==> low[i] <= e.versions[i] <= s.versions[i]
  {
    assert s'.sent == s.sent + [EventOf(s.callers[c])];
  }
}
