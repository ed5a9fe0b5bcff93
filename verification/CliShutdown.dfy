/** The shutdown signal shared by concurrent command-line hosts
    (crates/app/src/chat.rs): a flag, a notifier, and a wait loop that checks the
    flag before and after registering for a notification. One step per atomic
    operation, any number of requesters and waiters. */
module CliShutdown {

  /** Where a `wait` call is. `armedAt` counts the notifications sent before it registered. */
  datatype Waiter =
    | Entered
    | LoopTop
    | Registering
    | Registered(armedAt: nat)
    | Awaiting(armedAt: nat)
    | Done

  /** `storing` are the `request_shutdown` calls between their store and their notify. */
  datatype State = State(requested: bool, notifications: nat, storing: set<nat>, waiters: map<nat, Waiter>)

  const INITIAL := State(false, 0, {}, map[])

  datatype Step =
    | Store(requester: nat)
    | Notify(requester: nat)
    | Enter(waiter: nat)
    | Advance(waiter: nat)

  /** Whether a waiter's own next operation can be taken: only an await can hold it back. */
  predicate CanAdvance(s: State, w: nat)
  {
    w in s.waiters && s.waiters[w] != Done && (s.waiters[w].Awaiting? ==> s.waiters[w].armedAt < s.notifications)
  }

  predicate Enabled(s: State, step: Step)
  {
    match step
    case Store(r) => r !in s.storing
    case Notify(r) => r in s.storing
    case Enter(w) => w !in s.waiters
    case Advance(w) => CanAdvance(s, w)
  }

  function Advanced(s: State, waiter: Waiter): Waiter
  {
    match waiter
    case Entered => if s.requested then Done else LoopTop
    case LoopTop => if s.requested then Done else Registering
    case Registering => Registered(s.notifications)
    case Registered(armedAt) => if s.requested then Done else Awaiting(armedAt)
    case Awaiting(_) => LoopTop
    case Done => Done
  }

  function Apply(s: State, step: Step): State
    requires Enabled(s, step)
  {
    match step
    case Store(r) => s.(requested := true, storing := s.storing + {r})
    case Notify(r) => s.(notifications := s.notifications + 1, storing := s.storing - {r})
    case Enter(w) => s.(waiters := s.waiters[w := Entered])
    case Advance(w) => s.(waiters := s.waiters[w := Advanced(s, s.waiters[w])])
  }

  ghost predicate Taken(s: State, step: Step, s': State)
  {
    Enabled(s, step) && s' == Apply(s, step)
  }

  ghost predicate IsRun(states: seq<State>, steps: seq<Step>)
  {
    && |states| == |steps| + 1
    && states[0] == INITIAL
    && forall i :: 0 <= i < |steps| ==> Taken(states[i], steps[i], states[i + 1])
  }

  /** A waiter that no notification has reached since it registered is blocked only
      while shutdown is unrequested or the notify of a request is still to run. */
  ghost predicate WaiterInv(s: State, waiter: Waiter)
  {
    match waiter
    case Registered(armedAt) => armedAt <= s.notifications
    case Awaiting(armedAt) =>
      armedAt <= s.notifications && (armedAt == s.notifications && s.requested ==> s.storing != {})
    case Done => s.requested
    case _ => true
  }

  ghost predicate Inv(s: State)
  {
    && (s.storing != {} ==> s.requested)
    && (s.requested ==> s.storing != {} || s.notifications > 0)
    && forall w :: w in s.waiters ==> WaiterInv(s, s.waiters[w])
  }

  lemma {:induction false} RunInv(states: seq<State>, steps: seq<Step>, k: nat)
    requires IsRun(states, steps) && k < |states|
    ensures Inv(states[k])
    decreases k
  {
    if k > 0 {
      RunInv(states, steps, k - 1);
      assert Taken(states[k - 1], steps[k - 1], states[k]);
    }
  }

  /** No lost wake-up, in any interleaving: a waiter that cannot go on waits for a
      request, or for a notify that is still to run. A waiter that returned was told to. */
  lemma NoLostWakeUp(states: seq<State>, steps: seq<Step>, k: nat, w: nat)
    requires IsRun(states, steps) && k < |states| && w in states[k].waiters
    ensures !CanAdvance(states[k], w) && states[k].waiters[w] != Done ==>
      !states[k].requested || states[k].storing != {}
    ensures states[k].waiters[w] == Done ==> states[k].requested
  {
    RunInv(states, steps, k);
    assert WaiterInv(states[k], states[k].waiters[w]);
  }

  /** How many operations a waiter has left once shutdown is requested. */
  function OperationsLeft(waiter: Waiter): nat
  {
    match waiter
    case Done => 0
    case Entered => 1
    case LoopTop => 1
    case Registered(_) => 1
    case Registering => 2
    case Awaiting(_) => 2
  }

  /** Once shutdown is requested and its notifications are out, every waiter that has
      not returned can go on, and each of its operations brings it closer to returning,
      whatever the others do. */
  lemma RequestedWaitersReturn(states: seq<State>, steps: seq<Step>, k: nat, w: nat)
    requires IsRun(states, steps) && k < |steps| && w in states[k].waiters
    requires states[k].requested
    ensures states[k + 1].requested && w in states[k + 1].waiters
    ensures states[k].storing == {} && states[k].waiters[w] != Done ==> CanAdvance(states[k], w)
    ensures OperationsLeft(states[k + 1].waiters[w]) ==
      OperationsLeft(states[k].waiters[w]) - (if steps[k] == Advance(w) then 1 else 0)
  {
    RunInv(states, steps, k);
    assert Taken(states[k], steps[k], states[k + 1]);
    assert WaiterInv(states[k], states[k].waiters[w]);
  }

  // ---------------------------------------------------- told by the steps alone

  ghost predicate SomeNotify(steps: seq<Step>, from: nat, to: nat)
  {
    exists m :: from <= m < to <= |steps| && steps[m].Notify?
  }

  ghost predicate SomeStore(steps: seq<Step>, to: nat)
  {
    exists m :: 0 <= m < to <= |steps| && steps[m].Store?
  }

  /** Requester `r` has stored at step `i` and not notified since. */
  ghost predicate StoredSince(steps: seq<Step>, r: nat, i: nat, k: nat)
  {
    i < k <= |steps| && steps[i] == Store(r) && forall m :: i < m < k ==> steps[m] != Notify(r)
  }

  ghost predicate Owes(steps: seq<Step>, r: nat, k: nat)
  {
    exists i: nat :: StoredSince(steps, r, i, k)
  }

  /** Shutdown is requested exactly when some requester has stored, and a requester
      owes a notify exactly between its store and that notify. */
  lemma {:induction false} RequestsFromSteps(states: seq<State>, steps: seq<Step>, k: nat)
    requires IsRun(states, steps) && k < |states|
    ensures states[k].requested <==> SomeStore(steps, k)
    ensures forall r :: r in states[k].storing <==> Owes(steps, r, k)
    decreases k
  {
    if k > 0 {
      RequestsFromSteps(states, steps, k - 1);
      var s, step, s' := states[k - 1], steps[k - 1], states[k];
      assert Taken(s, step, s');
      if m :| 0 <= m < k - 1 && steps[m].Store? {
        assert SomeStore(steps, k);
      }
      if m :| 0 <= m < k && steps[m].Store? {
        assert step.Store? || SomeStore(steps, k - 1);
      }
      forall r ensures r in s'.storing <==> Owes(steps, r, k) {
        StoringStep(steps, r, k);
      }
    }
  }

  lemma StoringStep(steps: seq<Step>, r: nat, k: nat)
    requires 0 < k <= |steps|
    ensures Owes(steps, r, k) <==> steps[k - 1] == Store(r) || (steps[k - 1] != Notify(r) && Owes(steps, r, k - 1))
  {
    var p := k - 1;
    if steps[k - 1] == Store(r) {
      assert StoredSince(steps, r, k - 1, k);
    }
    if i: nat :| StoredSince(steps, r, i, p) {
      assert steps[p] != Notify(r) ==> StoredSince(steps, r, i, k);
    }
    if i: nat :| StoredSince(steps, r, i, k) {
      assert i < p ==> StoredSince(steps, r, i, p);
    }
  }

  /** In every run a requester stores, notifies, and only then may store again. */
  lemma RequestersAlternate(states: seq<State>, steps: seq<Step>, k: nat, r: nat)
    requires IsRun(states, steps) && k < |states|
    ensures Enabled(states[k], Store(r)) <==> !Owes(steps, r, k)
    ensures Enabled(states[k], Notify(r)) <==> Owes(steps, r, k)
  {
    RequestsFromSteps(states, steps, k);
  }

  function Notifies(steps: seq<Step>): nat
  {
    if steps == [] then 0 else Notifies(steps[..|steps| - 1]) + if steps[|steps| - 1].Notify? then 1 else 0
  }

  lemma {:induction false} NotificationsCounted(states: seq<State>, steps: seq<Step>, k: nat)
    requires IsRun(states, steps) && k < |states|
    ensures states[k].notifications == Notifies(steps[..k])
    decreases k
  {
    if k > 0 {
      NotificationsCounted(states, steps, k - 1);
      assert Taken(states[k - 1], steps[k - 1], states[k]);
      assert steps[..k][..k - 1] == steps[..k - 1];
    }
  }

  /** How many operations a waiter is from blocking while shutdown is not requested. */
  function OperationsToBlock(waiter: Waiter): nat
    requires waiter != Done
  {
    match waiter
    case Entered => 4
    case LoopTop => 3
    case Registering => 2
    case Registered(_) => 1
    case Awaiting(_) => 0
  }

  /** While shutdown is not requested a waiter does not return, and each of its operations
      brings it one closer to blocking; one that a notification woke starts over. */
  lemma UnrequestedWaiterBlocks(s: State, w: nat, s': State)
    requires Inv(s) && Taken(s, Advance(w), s') && !s.requested
    ensures w in s.waiters && w in s'.waiters && s.waiters[w] != Done && s'.waiters[w] != Done
    ensures OperationsToBlock(s'.waiters[w]) ==
      if s.waiters[w].Awaiting? then 3 else OperationsToBlock(s.waiters[w]) - 1
  {
  }

  /** Step `j` registers waiter `w`, which does not register again before step `k`. */
  ghost predicate RegisteredSince(states: seq<State>, steps: seq<Step>, w: nat, j: nat, k: nat)
  {
    && j < k <= |steps| < |states| && Registers(states[j], steps[j], w)
    && forall m :: j < m < k ==> !Registers(states[m], steps[m], w)
  }

  predicate Registers(s: State, step: Step, w: nat)
  {
    step == Advance(w) && w in s.waiters && s.waiters[w] == Registering
  }

  /** What a waiter that registered at `armedAt` notifications remembers. */
  predicate Remembers(s: State, w: nat, armedAt: nat)
  {
    && w in s.waiters
    && (s.waiters[w].Registered? || s.waiters[w].Awaiting? ==> s.waiters[w].armedAt == armedAt)
  }

  lemma {:induction false} RememberedFromSteps(states: seq<State>, steps: seq<Step>, w: nat, j: nat, k: nat)
    requires IsRun(states, steps) && RegisteredSince(states, steps, w, j, k)
    ensures Remembers(states[k], w, states[j].notifications)
    ensures states[j].notifications <= states[k].notifications
    ensures states[j].notifications < states[k].notifications <==> SomeNotify(steps, j, k)
    decreases k
  {
    assert Taken(states[k - 1], steps[k - 1], states[k]);
    NotifyStep(steps, j, k);
    if j + 1 < k {
      RememberedFromSteps(states, steps, w, j, k - 1);
    } else {
      assert !SomeNotify(steps, j, j);
    }
  }

  lemma NotifyStep(steps: seq<Step>, j: nat, k: nat)
    requires j < k <= |steps|
    ensures SomeNotify(steps, j, k) <==> steps[k - 1].Notify? || SomeNotify(steps, j, k - 1)
  {
    if m :| j <= m < k && steps[m].Notify? {
      assert m == k - 1 || SomeNotify(steps, j, k - 1);
    }
    if steps[k - 1].Notify? {
      assert SomeNotify(steps, j, k);
    }
    if m :| j <= m < k - 1 && steps[m].Notify? {
      assert SomeNotify(steps, j, k);
    }
  }

  /** In every interleaving, a waiter that awaits goes on exactly when some requester
      has notified since that waiter last registered. */
  lemma AwaitEndsByNotify(states: seq<State>, steps: seq<Step>, w: nat, j: nat, k: nat)
    requires IsRun(states, steps) && RegisteredSince(states, steps, w, j, k)
    requires w in states[k].waiters && states[k].waiters[w].Awaiting?
    ensures CanAdvance(states[k], w) <==> SomeNotify(steps, j, k)
  {
    RememberedFromSteps(states, steps, w, j, k);
  }
}
