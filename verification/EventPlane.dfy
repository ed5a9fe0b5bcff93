/** The control plane's event manager under concurrency
    (crates/app/src/control_plane.rs). `record_event` is cut at its atomic
    operations: bump a lane version, take a sequence number, load the five
    versions one by one, then push, broadcast and notify under the retention
    lock. Waiters register for a notification, check, and block. Atomics are
    sequentially consistent. */
module EventPlane {
  import opened Windows

  const RECENT_LIMIT: nat := 256

  datatype Lane = Presence | Health | Sessions | Approvals | Acp

  /** Position of a lane's version in the order the versions are loaded. */
  function LaneIndex(lane: Lane): (i: nat)
    ensures i < 5
  {
    match lane
    case Presence => 0
    case Health => 1
    case Sessions => 2
    case Approvals => 3
    case Acp => 4
  }

  datatype Call = Call(lane: Lane, kind: string, payload: string, targeted: bool)

  datatype Event = Event(kind: string, seqNo: nat, versions: seq<nat>, payload: string, targeted: bool)

  /** Where a `record_event` call is. A caller not in the map is between calls. */
  datatype Caller =
    | Bumped(call: Call)
    | Sequenced(call: Call, seqNo: nat, loaded: seq<nat>)

  datatype Query = Query(after: nat, limit: nat, includeTargeted: bool)

  /** Where a `wait_for_recent_events` call is. `armedAt` is the number of
      notifications sent before the waiter registered for the next one. */
  datatype Waiter =
    | Looping(query: Query)
    | Armed(query: Query, armedAt: nat)
    | Blocked(query: Query, armedAt: nat)
    | Returned(query: Query, events: seq<Event>)

  datatype Push = Push(caller: nat, event: Event)

  /** `pushes` is the history of all pushes, `sent` the broadcast channel's. */
  datatype State = State(
    seqNo: nat, versions: seq<nat>, callers: map<nat, Caller>,
    recent: seq<Event>, sent: seq<Event>, pushes: seq<Push>,
    notifications: nat, waiters: map<nat, Waiter>)

  const INITIAL := State(0, [0, 0, 0, 0, 0], map[], [], [], [], 0, map[])

  datatype Step =
    | BumpVersion(caller: nat, call: Call)
    | TakeSeq(caller: nat)
    | LoadVersion(caller: nat)
    | PushEvent(caller: nat)
    | StartWait(waiter: nat, query: Query)
    | Arm(waiter: nat)
    | Check(waiter: nat)
    | Wake(waiter: nat)
    | Expire(waiter: nat)

  // -------------------------------------------------------------------- steps

  predicate Ready(s: State, c: nat)
  {
    c in s.callers && s.callers[c].Sequenced? && |s.callers[c].loaded| == 5
  }

  predicate Enabled(s: State, step: Step)
  {
    match step
    case BumpVersion(c, _) => c !in s.callers
    case TakeSeq(c) => c in s.callers && s.callers[c].Bumped?
    case LoadVersion(c) => c in s.callers && s.callers[c].Sequenced? && |s.callers[c].loaded| < 5
    case PushEvent(c) => Ready(s, c)
    case StartWait(w, _) => w !in s.waiters
    case Arm(w) => w in s.waiters && s.waiters[w].Looping?
    case Check(w) => w in s.waiters && s.waiters[w].Armed?
    case Wake(w) => w in s.waiters && s.waiters[w].Blocked? && s.waiters[w].armedAt < s.notifications
    case Expire(w) => w in s.waiters && s.waiters[w].Blocked?
  }

  function EventOf(caller: Caller): Event
    requires caller.Sequenced?
  {
    Event(caller.call.kind, caller.seqNo, caller.loaded, caller.call.payload, caller.call.targeted)
  }

  function Apply(s: State, step: Step): State
    requires |s.versions| == 5 && Enabled(s, step)
  {
    match step
    case BumpVersion(c, call) =>
      var i := LaneIndex(call.lane);
      s.(versions := s.versions[i := s.versions[i] + 1], callers := s.callers[c := Bumped(call)])
    case TakeSeq(c) =>
      s.(seqNo := s.seqNo + 1, callers := s.callers[c := Sequenced(s.callers[c].call, s.seqNo + 1, [])])
    case LoadVersion(c) =>
      var caller := s.callers[c];
      s.(callers := s.callers[c := caller.(loaded := caller.loaded + [s.versions[|caller.loaded|]])])
    case PushEvent(c) =>
      var event := EventOf(s.callers[c]);
      s.(callers := s.callers - {c}, recent := Last(s.recent + [event], RECENT_LIMIT), sent := s.sent + [event],
         pushes := s.pushes + [Push(c, event)], notifications := s.notifications + 1)
    case StartWait(w, query) => s.(waiters := s.waiters[w := Looping(query)])
    case Arm(w) => s.(waiters := s.waiters[w := Armed(s.waiters[w].query, s.notifications)])
    case Check(w) =>
      var waiter := s.waiters[w];
      var page := Page(s.recent, waiter.query);
      s.(waiters := s.waiters[w :=
        if page != [] then Returned(waiter.query, page) else Blocked(waiter.query, waiter.armedAt)])
    case Wake(w) => s.(waiters := s.waiters[w := Looping(s.waiters[w].query)])
    case Expire(w) => s.(waiters := s.waiters[w := Returned(s.waiters[w].query, [])])
  }

  predicate Selected(e: Event, q: Query)
  {
    (q.includeTargeted || !e.targeted) && e.seqNo > q.after
  }

  function FirstSelected(events: seq<Event>, q: Query, n: nat): seq<Event>
  {
    if events == [] || n == 0 then []
    else if Selected(events[0], q) then [events[0]] + FirstSelected(events[1..], q, n - 1)
    else FirstSelected(events[1..], q, n)
  }

  /** The limit of a page, clamped. */
  function Bound(q: Query): nat
  {
    if q.limit < 1 then 1 else Min(q.limit, RECENT_LIMIT)
  }

  /** `recent_events_after`. */
  function Page(events: seq<Event>, q: Query): seq<Event>
  {
    FirstSelected(events, q, Bound(q))
  }

  /** All the events a query selects. */
  function AllSelected(events: seq<Event>, q: Query): seq<Event>
  {
    if events == [] then []
    else
      var e := events[|events| - 1];
      AllSelected(events[..|events| - 1], q) + if (q.includeTargeted || !e.targeted) && e.seqNo > q.after then [e] else []
  }

  lemma AllSelectedNone(q: Query)
    ensures AllSelected([], q) == []
  {
  }

  lemma {:induction false} AllSelectedCons(e: Event, rest: seq<Event>, q: Query)
    ensures AllSelected([e] + rest, q) == (if Selected(e, q) then [e] else []) + AllSelected(rest, q)
  {
    if rest == [] {
      assert [e] + rest == [e] && [e][..0] == [];
    } else {
      var n := |rest| - 1;
      AllSelectedCons(e, rest[..n], q);
      assert ([e] + rest)[..n + 1] == [e] + rest[..n];
    }
  }

  lemma {:induction false} FirstOfSelected(events: seq<Event>, q: Query, n: nat)
    ensures FirstSelected(events, q, n) == Slice(AllSelected(events, q), 0, n)
    decreases |events|
  {
    hide Slice;
    hide AllSelected;
    if events == [] {
      AllSelectedNone(q);
      SliceNone(AllSelected(events, q), n);
    } else {
      assert events == [events[0]] + events[1..];
      AllSelectedCons(events[0], events[1..], q);
      var rest := AllSelected(events[1..], q);
      if n == 0 {
        SliceNone(AllSelected(events, q), n);
      } else if Selected(events[0], q) {
        FirstOfSelected(events[1..], q, n - 1);
        SliceHead([events[0]] + rest, n);
        assert ([events[0]] + rest)[1..] == rest;
      } else {
        FirstOfSelected(events[1..], q, n);
        assert [] + rest == rest;
      }
    }
  }

  lemma SliceNone<T>(s: seq<T>, n: nat)
    requires s == [] || n == 0
    ensures Slice(s, 0, n) == []
  {
  }

  /** A page of retained events is the first of the selected ones: as many as asked
      for and at least one, or all there are. */
  lemma PageIsFirstSelected(events: seq<Event>, q: Query)
    requires |events| <= 256
    ensures var all, n := AllSelected(events, q), Max(1, q.limit);
      Page(events, q) == if |all| <= n then all else all[..n]
  {
    FirstOfSelected(events, q, Bound(q));
    AllSelectedSize(events, q);
    hide AllSelected;
    hide FirstSelected;
  }

  lemma {:induction false} AllSelectedSize(events: seq<Event>, q: Query)
    ensures |AllSelected(events, q)| <= |events|
  {
    if events != [] {
      AllSelectedSize(events[..|events| - 1], q);
    }
  }

  /** A page comes back empty exactly when no retained event is selected. */
  lemma PageEmptyExactly(events: seq<Event>, q: Query)
    ensures Page(events, q) == [] <==> forall i :: 0 <= i < |events| ==> !Selected(events[i], q)
  {
    FirstSelectedEmpty(events, q, if q.limit < 1 then 1 else Min(q.limit, RECENT_LIMIT));
  }

  lemma {:induction false} FirstSelectedEmpty(events: seq<Event>, q: Query, n: nat)
    requires n > 0
    ensures FirstSelected(events, q, n) == [] <==> forall i :: 0 <= i < |events| ==> !Selected(events[i], q)
  {
    if events != [] && !Selected(events[0], q) {
      FirstSelectedEmpty(events[1..], q, n);
      assert forall i :: 0 < i < |events| ==> events[i] == events[1..][i - 1];
    }
  }

  // --------------------------------------------------------------------- runs

  ghost predicate IsRun(states: seq<State>, steps: seq<Step>)
  {
    && |states| == |steps| + 1
    && states[0] == INITIAL
    && forall i :: 0 <= i < |steps| ==> Taken(states[i], steps[i], states[i + 1])
  }

  ghost predicate Taken(s: State, step: Step, s': State)
  {
    |s.versions| == 5 && Enabled(s, step) && s' == Apply(s, step)
  }

  // ------------------------------------------------------- lanes and sequence

  function Sum(s: seq<nat>): nat
  {
    if s == [] then 0 else s[0] + Sum(s[1..])
  }

  lemma {:induction false} SumUpdate(s: seq<nat>, i: nat)
    requires i < |s|
    ensures Sum(s[i := s[i] + 1]) == Sum(s) + 1
  {
    if i == 0 {
      assert s[i := s[i] + 1][1..] == s[1..];
    } else {
      assert s[i := s[i] + 1][1..] == s[1..][i - 1 := s[1..][i - 1] + 1];
      SumUpdate(s[1..], i - 1);
    }
  }

  lemma {:induction false} SumConcat(a: seq<nat>, b: seq<nat>)
    ensures Sum(a + b) == Sum(a) + Sum(b)
  {
    if a == [] {
      assert a + b == b;
    } else {
      assert (a + b)[1..] == a[1..] + b;
      SumConcat(a[1..], b);
    }
  }

  function BumpedCallers(callers: map<nat, Caller>): set<nat>
  {
    set c | c in callers && callers[c].Bumped?
  }

  /** Every version bump is followed by exactly one sequence number: at any moment
      the lane versions exceed it by the calls in between. */
  ghost predicate CountInv(s: State)
  {
    && |s.versions| == 5
    && Sum(s.versions) == s.seqNo + |BumpedCallers(s.callers)|
  }

  lemma BumpedAdded(callers: map<nat, Caller>, c: nat, call: Call)
    requires c !in callers
    ensures |BumpedCallers(callers[c := Bumped(call)])| == |BumpedCallers(callers)| + 1
  {
    assert BumpedCallers(callers[c := Bumped(call)]) == BumpedCallers(callers) + {c};
  }

  lemma BumpedTaken(callers: map<nat, Caller>, c: nat, caller: Caller)
    requires c in callers && callers[c].Bumped? && !caller.Bumped?
    ensures |BumpedCallers(callers[c := caller])| + 1 == |BumpedCallers(callers)|
  {
    assert BumpedCallers(callers) == BumpedCallers(callers[c := caller]) + {c};
  }

  lemma BumpedSame(callers: map<nat, Caller>, c: nat, caller: Caller)
    requires c in callers && !callers[c].Bumped? && !caller.Bumped?
    ensures BumpedCallers(callers[c := caller]) == BumpedCallers(callers) == BumpedCallers(callers - {c})
  {
  }

  lemma CountStep(s: State, step: Step, s': State)
    requires CountInv(s) && Taken(s, step, s')
    ensures CountInv(s')
  {
    hide Sum;
    hide BumpedCallers;
    match step
    case BumpVersion(c, call) =>
      SumUpdate(s.versions, LaneIndex(call.lane));
      BumpedAdded(s.callers, c, call);
    case TakeSeq(c) =>
      BumpedTaken(s.callers, c, s'.callers[c]);
    case LoadVersion(c) =>
      BumpedSame(s.callers, c, s'.callers[c]);
    case PushEvent(c) =>
      BumpedSame(s.callers, c, s.callers[c]);
    case StartWait(_, _) =>
    case Arm(_) =>
    case Check(_) =>
    case Wake(_) =>
    case Expire(_) =>
  }

  /** A call that holds a sequence number will not load versions that sum to less. */
  ghost predicate CallerInv(versions: seq<nat>, seqNo: nat, caller: Caller)
    requires |versions| == 5
  {
    caller.Sequenced? ==>
      && 1 <= caller.seqNo <= seqNo && |caller.loaded| <= 5
      && caller.seqNo <= Sum(caller.loaded) + Sum(versions[|caller.loaded|..])
  }

  /** What is pushed was numbered, and carries versions that account for its number. */
  ghost predicate PushInv(seqNo: nat, p: Push)
  {
    1 <= p.event.seqNo <= seqNo && |p.event.versions| == 5 && p.event.seqNo <= Sum(p.event.versions)
  }

  ghost predicate VersionInv(s: State)
  {
    && |s.versions| == 5
    && (forall c :: c in s.callers ==> CallerInv(s.versions, s.seqNo, s.callers[c]))
    && (forall i :: 0 <= i < |s.pushes| ==> PushInv(s.seqNo, s.pushes[i]))
  }

  lemma SumSuffixBumped(v: seq<nat>, i: nat, k: nat)
    requires i < |v| && k <= |v|
    ensures Sum(v[k..]) <= Sum(v[i := v[i] + 1][k..])
  {
    var u := v[i := v[i] + 1];
    if k <= i {
      assert u[k..] == v[k..][i - k := v[k..][i - k] + 1];
      SumUpdate(v[k..], i - k);
    } else {
      assert u[k..] == v[k..];
    }
  }

  lemma SumLoaded(loaded: seq<nat>, v: seq<nat>)
    requires |loaded| < |v|
    ensures Sum(loaded + [v[|loaded|]]) + Sum(v[|loaded| + 1..]) == Sum(loaded) + Sum(v[|loaded|..])
  {
    var k := |loaded|;
    SumConcat(loaded, [v[k]]);
    assert [v[k]][1..] == [] && Sum([v[k]]) == v[k];
    assert v[k..][1..] == v[k + 1..];
  }

  /** A bump can only raise what a call will load. */
  lemma BumpCovers(versions: seq<nat>, i: nat, seqNo: nat, caller: Caller)
    requires |versions| == 5 && i < 5 && CallerInv(versions, seqNo, caller)
    ensures CallerInv(versions[i := versions[i] + 1], seqNo, caller)
  {
    hide Sum;
    if caller.Sequenced? {
      SumSuffixBumped(versions, i, |caller.loaded|);
    }
  }

  /** A number just taken is covered by the versions of that moment. */
  lemma TakeCovers(s: State, c: nat)
    requires CountInv(s) && c in s.callers && s.callers[c].Bumped?
    ensures CallerInv(s.versions, s.seqNo + 1, Sequenced(s.callers[c].call, s.seqNo + 1, []))
  {
    BumpedTaken(s.callers, c, Sequenced(s.callers[c].call, s.seqNo + 1, []));
    assert s.versions[0..] == s.versions;
    assert Sum([]) == 0;
  }

  lemma LoadCovers(versions: seq<nat>, seqNo: nat, caller: Caller)
    requires |versions| == 5 && CallerInv(versions, seqNo, caller) && caller.Sequenced? && |caller.loaded| < 5
    ensures CallerInv(versions, seqNo, caller.(loaded := caller.loaded + [versions[|caller.loaded|]]))
  {
    hide Sum;
    SumLoaded(caller.loaded, versions);
  }

  lemma PushCovers(versions: seq<nat>, seqNo: nat, c: nat, caller: Caller)
    requires |versions| == 5 && CallerInv(versions, seqNo, caller) && caller.Sequenced? && |caller.loaded| == 5
    ensures PushInv(seqNo, Push(c, EventOf(caller)))
  {
    assert versions[5..] == [];
  }

  lemma LaterCovers(s: State)
    requires VersionInv(s)
    ensures forall c :: c in s.callers ==> CallerInv(s.versions, s.seqNo + 1, s.callers[c])
    ensures forall i :: 0 <= i < |s.pushes| ==> PushInv(s.seqNo + 1, s.pushes[i])
  {
    hide Sum;
  }

  lemma VersionStep(s: State, step: Step, s': State)
    requires CountInv(s) && VersionInv(s) && Taken(s, step, s')
    ensures VersionInv(s')
  {
    hide CountInv;
    hide CallerInv;
    hide PushInv;
    match step
    case BumpVersion(c, call) =>
      forall d | d in s.callers ensures CallerInv(s'.versions, s.seqNo, s.callers[d]) {
        BumpCovers(s.versions, LaneIndex(call.lane), s.seqNo, s.callers[d]);
      }
      BumpedHasNoNumber(s'.versions, s.seqNo, call);
    case TakeSeq(c) =>
      TakeCovers(s, c);
      LaterCovers(s);
    case LoadVersion(c) =>
      LoadCovers(s.versions, s.seqNo, s.callers[c]);
    case PushEvent(c) =>
      PushCovers(s.versions, s.seqNo, c, s.callers[c]);
    case StartWait(_, _) =>
    case Arm(_) =>
    case Check(_) =>
    case Wake(_) =>
    case Expire(_) =>
  }

  lemma BumpedHasNoNumber(versions: seq<nat>, seqNo: nat, call: Call)
    requires |versions| == 5
    ensures CallerInv(versions, seqNo, Bumped(call))
  {
  }

  // ------------------------------------------------------- uniqueness and order

  ghost predicate HeldBy(callers: map<nat, Caller>, c: nat, n: int)
  {
    c in callers && callers[c].Sequenced? && callers[c].seqNo == n
  }

  /** Number `n` belongs to a call in flight. */
  ghost predicate InFlight(callers: map<nat, Caller>, n: int)
  {
    exists c :: HeldBy(callers, c, n)
  }

  ghost predicate PushedAt(pushes: seq<Push>, i: int, n: int)
  {
    0 <= i < |pushes| && pushes[i].event.seqNo == n
  }

  /** Number `n` has been pushed. */
  ghost predicate Pushed(pushes: seq<Push>, n: int)
  {
    exists i :: PushedAt(pushes, i, n)
  }

  /** Each number taken so far is in one place: with one call in flight or in the push history, once. */
  ghost predicate NumberInv(s: State)
  {
    && (forall c, n :: HeldBy(s.callers, c, n) ==> 1 <= n <= s.seqNo && !Pushed(s.pushes, n))
    && (forall c, d, n :: HeldBy(s.callers, c, n) && HeldBy(s.callers, d, n) ==> c == d)
    && (forall i, n :: PushedAt(s.pushes, i, n) ==> 1 <= n <= s.seqNo)
    && (forall i, j, n :: PushedAt(s.pushes, i, n) && PushedAt(s.pushes, j, n) ==> i == j)
    && (forall n :: 1 <= n <= s.seqNo ==> InFlight(s.callers, n) || Pushed(s.pushes, n))
  }

  lemma HeldStep(s: State, step: Step, s': State, c: nat, n: int)
    requires Taken(s, step, s')
    ensures HeldBy(s'.callers, c, n) <==>
      (if step == TakeSeq(c) then n == s.seqNo + 1 else HeldBy(s.callers, c, n) && step != PushEvent(c))
  {
  }

  lemma PushedStep(s: State, step: Step, s': State, i: int, n: int)
    requires Taken(s, step, s')
    ensures PushedAt(s'.pushes, i, n) <==>
      (PushedAt(s.pushes, i, n) || (step.PushEvent? && i == |s.pushes| && HeldBy(s.callers, step.caller, n)))
  {
  }

  lemma NumberStep(s: State, step: Step, s': State)
    requires NumberInv(s) && Taken(s, step, s')
    ensures NumberInv(s')
  {
    forall c: nat, n: int ensures HeldBy(s'.callers, c, n) <==>
      (if step == TakeSeq(c) then n == s.seqNo + 1 else HeldBy(s.callers, c, n) && step != PushEvent(c)) {
      HeldStep(s, step, s', c, n);
    }
    forall i: int, n: int ensures PushedAt(s'.pushes, i, n) <==>
      (PushedAt(s.pushes, i, n) || (step.PushEvent? && i == |s.pushes| && HeldBy(s.callers, step.caller, n))) {
      PushedStep(s, step, s', i, n);
    }
    assert s'.seqNo == if step.TakeSeq? then s.seqNo + 1 else s.seqNo;
    assert forall i, n :: PushedAt(s.pushes, i, n) ==> i < |s.pushes|;
    hide HeldBy;
    hide PushedAt;
    hide Taken;
    forall n | 1 <= n <= s'.seqNo ensures InFlight(s'.callers, n) || Pushed(s'.pushes, n) {
      NumberPlaced(s, step, s', n);
    }
  }

  lemma NumberPlaced(s: State, step: Step, s': State, n: int)
    requires NumberInv(s) && Taken(s, step, s') && 1 <= n <= s'.seqNo
    ensures InFlight(s'.callers, n) || Pushed(s'.pushes, n)
  {
    if step.TakeSeq? && n == s.seqNo + 1 {
      HeldStep(s, step, s', step.caller, n);
    } else if Pushed(s.pushes, n) {
      var i :| PushedAt(s.pushes, i, n);
      PushedStep(s, step, s', i, n);
    } else {
      var c: nat :| HeldBy(s.callers, c, n);
      HeldStep(s, step, s', c, n);
      if step == PushEvent(c) {
        PushedStep(s, step, s', |s.pushes|, n);
      }
    }
  }

  /** A caller's own events carry increasing numbers, in the order they are pushed. */
  ghost predicate OrderInv(s: State)
  {
    && (forall i, j :: 0 <= i < j < |s.pushes| && s.pushes[i].caller == s.pushes[j].caller ==>
          s.pushes[i].event.seqNo < s.pushes[j].event.seqNo)
    && (forall i, c :: 0 <= i < |s.pushes| && s.pushes[i].caller == c && c in s.callers && s.callers[c].Sequenced? ==>
          s.pushes[i].event.seqNo < s.callers[c].seqNo)
    && (forall i :: 0 <= i < |s.pushes| ==> s.pushes[i].event.seqNo <= s.seqNo)
  }

  lemma OrderStep(s: State, step: Step, s': State)
    requires OrderInv(s) && VersionInv(s) && Taken(s, step, s')
    ensures OrderInv(s')
  {
  }

  /** What is broadcast is what is pushed, in the same order, and the retained events are its end. */
  ghost predicate MirrorInv(s: State)
  {
    && |s.sent| == |s.pushes| == s.notifications
    && (forall i :: 0 <= i < |s.sent| ==> s.sent[i] == s.pushes[i].event)
    && s.recent == Last(s.sent, RECENT_LIMIT)
  }

  lemma MirrorStep(s: State, step: Step, s': State)
    requires MirrorInv(s) && Taken(s, step, s')
    ensures MirrorInv(s')
  {
    if step.PushEvent? {
      LastAppend(s.sent, EventOf(s.callers[step.caller]), RECENT_LIMIT);
    }
  }

  /** A waiter blocked with no notification since it registered has nothing to return. */
  ghost predicate WaiterInv(s: State)
  {
    forall w :: w in s.waiters ==> OneWaiterInv(s.recent, s.notifications, s.waiters[w])
  }

  ghost predicate OneWaiterInv(recent: seq<Event>, notifications: nat, waiter: Waiter)
  {
    match waiter
    case Looping(_) => true
    case Armed(_, armedAt) => armedAt <= notifications
    case Blocked(query, armedAt) =>
      armedAt <= notifications && (armedAt == notifications ==> Page(recent, query) == [])
    case Returned(query, events) => forall i :: 0 <= i < |events| ==> Selected(events[i], query)
  }

  lemma WaiterStep(s: State, step: Step, s': State)
    requires WaiterInv(s) && Taken(s, step, s')
    ensures WaiterInv(s')
  {
    if step.Check? {
      PageSelected(s.recent, s.waiters[step.waiter].query);
    }
    hide Page;
  }

  lemma PageSelected(events: seq<Event>, q: Query)
    ensures forall i :: 0 <= i < |Page(events, q)| ==> Selected(Page(events, q)[i], q)
  {
    FirstSelectedSelected(events, q, if q.limit < 1 then 1 else Min(q.limit, RECENT_LIMIT));
  }

  lemma {:induction false} FirstSelectedSelected(events: seq<Event>, q: Query, n: nat)
    ensures forall i :: 0 <= i < |FirstSelected(events, q, n)| ==> Selected(FirstSelected(events, q, n)[i], q)
    decreases |events|
  {
    if events != [] && n > 0 {
      FirstSelectedSelected(events[1..], q, if Selected(events[0], q) then n - 1 else n);
    }
  }

  ghost predicate Inv(s: State)
  {
    CountInv(s) && VersionInv(s) && NumberInv(s) && OrderInv(s) && MirrorInv(s) && WaiterInv(s)
  }

  lemma StepInv(s: State, step: Step, s': State)
    requires Inv(s) && Taken(s, step, s')
    ensures Inv(s')
  {
    hide CountInv;
    hide VersionInv;
    hide NumberInv;
    hide OrderInv;
    hide MirrorInv;
    hide WaiterInv;
    hide Taken;
    CountStep(s, step, s');
    VersionStep(s, step, s');
    NumberStep(s, step, s');
    OrderStep(s, step, s');
    MirrorStep(s, step, s');
    WaiterStep(s, step, s');
  }

  lemma InitialInv()
    ensures Inv(INITIAL)
  {
    assert BumpedCallers(map[]) == {};
    assert Sum([0, 0, 0, 0, 0]) == 0 by {
      assert [0, 0, 0, 0, 0][1..] == [0, 0, 0, 0] && [0, 0, 0, 0][1..] == [0, 0, 0] && [0, 0, 0][1..] == [0, 0];
      assert [0, 0][1..] == [0] && [0][1..] == [];
      assert Sum([0]) == 0 && Sum([0, 0]) == 0 && Sum([0, 0, 0]) == 0 && Sum([0, 0, 0, 0]) == 0;
    }
  }

  /** Every state of every interleaving satisfies the invariants. */
  lemma {:induction false} RunInv(states: seq<State>, steps: seq<Step>, k: nat)
    requires IsRun(states, steps) && k < |states|
    ensures Inv(states[k])
    decreases k
  {
    hide Inv;
    hide Taken;
    if k == 0 {
      InitialInv();
    } else {
      RunInv(states, steps, k - 1);
      StepInv(states[k - 1], steps[k - 1], states[k]);
    }
  }

  /** In every interleaving: pushed numbers are pairwise different, no event
      carries versions that sum to less than its number, one caller's events are
      in increasing order, the broadcast order is the push order, and the
      retained events are the last of it. */
  lemma EventsAreNumberedSafely(states: seq<State>, steps: seq<Step>, k: nat)
    requires IsRun(states, steps) && k < |states|
    ensures var s := states[k];
      && |s.sent| == |s.pushes| && s.recent == Last(s.sent, RECENT_LIMIT)
      && (forall i :: 0 <= i < |s.pushes| ==> s.sent[i] == s.pushes[i].event)
      && (forall i :: 0 <= i < |s.pushes| ==> 1 <= s.sent[i].seqNo <= Sum(s.sent[i].versions) && s.sent[i].seqNo <= s.seqNo)
      && (forall i, j :: 0 <= i < j < |s.pushes| ==> s.sent[i].seqNo != s.sent[j].seqNo)
      && (forall i, j :: 0 <= i < j < |s.pushes| && s.pushes[i].caller == s.pushes[j].caller ==> s.sent[i].seqNo < s.sent[j].seqNo)
  {
    RunInv(states, steps, k);
    var s := states[k];
    forall i, j | 0 <= i < j < |s.pushes| ensures s.pushes[i].event.seqNo != s.pushes[j].event.seqNo {
      assert PushedAt(s.pushes, i, s.pushes[i].event.seqNo) && PushedAt(s.pushes, j, s.pushes[j].event.seqNo);
    }
    forall i | 0 <= i < |s.pushes| ensures PushInv(s.seqNo, s.pushes[i]) {
    }
    hide Sum;
    hide NumberInv;
  }

  /** With no call in flight the lane versions sum to the sequence number, and
      every number from one to it has been pushed exactly once. */
  lemma QuiescentAccounts(states: seq<State>, steps: seq<Step>, k: nat)
    requires IsRun(states, steps) && k < |states| && states[k].callers == map[]
    ensures Sum(states[k].versions) == states[k].seqNo
    ensures forall n :: 1 <= n <= states[k].seqNo <==> Pushed(states[k].pushes, n)
    ensures forall i, j, n :: PushedAt(states[k].pushes, i, n) && PushedAt(states[k].pushes, j, n) ==> i == j
  {
    RunInv(states, steps, k);
    assert BumpedCallers(map[]) == {};
    hide Sum;
  }

  /** No lost wake-up: if a waiter is blocked and cannot be woken, nothing has been
      pushed since it registered and no retained event is one it asked for. */
  lemma NoLostWakeUp(states: seq<State>, steps: seq<Step>, k: nat, w: nat)
    requires IsRun(states, steps) && k < |states|
    requires w in states[k].waiters && states[k].waiters[w].Blocked? && !Enabled(states[k], Wake(w))
    ensures states[k].waiters[w].armedAt == |states[k].pushes|
    ensures forall i :: 0 <= i < |states[k].recent| ==> !Selected(states[k].recent[i], states[k].waiters[w].query)
  {
    RunInv(states, steps, k);
    PageEmptyExactly(states[k].recent, states[k].waiters[w].query);
  }

  // -------------------------------------------------------------------- in order

  /** The `i`-th push carries number `i + 1`. */
  ghost predicate InOrder(pushes: seq<Push>)
  {
    forall i :: 0 <= i < |pushes| ==> pushes[i].event.seqNo == i + 1
  }

  /** Step `k` pushes an event while another call still holds a smaller number. */
  ghost predicate Overtakes(s: State, step: Step, d: nat, n: int)
  {
    step.PushEvent? && Ready(s, step.caller) && HeldBy(s.callers, d, n) && n < s.callers[step.caller].seqNo
  }

  ghost predicate NoOvertaking(states: seq<State>, steps: seq<Step>)
    requires |states| == |steps| + 1
  {
    forall k, d, n :: 0 <= k < |steps| ==> !Overtakes(states[k], steps[k], d, n)
  }

  lemma InOrderStep(s: State, step: Step, s': State)
    requires NumberInv(s) && Taken(s, step, s') && InOrder(s.pushes)
    requires forall d, n :: !Overtakes(s, step, d, n)
    ensures InOrder(s'.pushes)
  {
    if step.PushEvent? {
      var n := s.callers[step.caller].seqNo;
      var m := |s.pushes| + 1;
      assert HeldBy(s.callers, step.caller, n);
      assert n > |s.pushes| by {
        if n <= |s.pushes| {
          assert PushedAt(s.pushes, n - 1, n);
        }
      }
      if m < n {
        assert forall i :: !PushedAt(s.pushes, i, m);
        assert InFlight(s.callers, m);
        var d: nat :| HeldBy(s.callers, d, m);
        assert Overtakes(s, step, d, m);
      }
    }
  }

  lemma {:induction false} NoOvertakingInOrder(states: seq<State>, steps: seq<Step>, k: nat)
    requires IsRun(states, steps) && NoOvertaking(states, steps) && k < |states|
    ensures InOrder(states[k].pushes)
    decreases k
  {
    if k > 0 {
      NoOvertakingInOrder(states, steps, k - 1);
      RunInv(states, steps, k - 1);
      hide NumberInv;
      hide Overtakes;
      hide Taken;
      hide InOrder;
      InOrderStep(states[k - 1], steps[k - 1], states[k]);
    }
  }

  /** A larger number sits in the history before `n`, or before `n` can get there. */
  ghost predicate Overtaken(pushes: seq<Push>, i: nat, n: int)
  {
    i < |pushes| && pushes[i].event.seqNo > n && forall j :: PushedAt(pushes, j, n) ==> j > i
  }

  lemma {:induction false} OvertakenStays(states: seq<State>, steps: seq<Step>, k: nat, l: nat, i: nat, n: int)
    requires IsRun(states, steps) && k <= l < |states| && Overtaken(states[k].pushes, i, n)
    ensures Overtaken(states[l].pushes, i, n)
    decreases l
  {
    if k < l {
      OvertakenStays(states, steps, k, l - 1, i, n);
      var s, s' := states[l - 1], states[l];
      assert Taken(s, steps[l - 1], s');
      forall j | PushedAt(s'.pushes, j, n) ensures j > i {
        PushedStep(s, steps[l - 1], s', j, n);
      }
      assert s.pushes <= s'.pushes;
    }
  }

  lemma OvertakingIsOutOfOrder(states: seq<State>, steps: seq<Step>, k: nat, d: nat, n: int)
    requires IsRun(states, steps) && k < |steps| && Overtakes(states[k], steps[k], d, n)
    requires states[|steps|].callers == map[]
    ensures !InOrder(states[|steps|].pushes)
  {
    var s, s' := states[k], states[k + 1];
    RunInv(states, steps, k);
    RunInv(states, steps, |steps|);
    assert Taken(s, steps[k], s');
    var i := |s.pushes|;
    forall j: int ensures !PushedAt(s'.pushes, j, n) {
      PushedStep(s, steps[k], s', j, n);
    }
    assert Overtaken(s'.pushes, i, n);
    OvertakenStays(states, steps, k + 1, |steps|, i, n);
    SeqNoGrows(states, steps, k, |steps|);
    var end := states[|steps|];
    assert Pushed(end.pushes, n);
    var j :| PushedAt(end.pushes, j, n);
  }

  lemma {:induction false} SeqNoGrows(states: seq<State>, steps: seq<Step>, k: nat, l: nat)
    requires IsRun(states, steps) && k <= l < |states|
    ensures states[k].seqNo <= states[l].seqNo
    decreases l
  {
    if k < l {
      SeqNoGrows(states, steps, k, l - 1);
      assert Taken(states[l - 1], steps[l - 1], states[l]);
    }
  }

  /** Once all calls are done, the history is in sequence order exactly when no
      push overtook a call holding a smaller number. */
  lemma InOrderExactly(states: seq<State>, steps: seq<Step>)
    requires IsRun(states, steps) && states[|steps|].callers == map[]
    ensures InOrder(states[|steps|].pushes) <==> NoOvertaking(states, steps)
  {
    if NoOvertaking(states, steps) {
      NoOvertakingInOrder(states, steps, |steps|);
    } else {
      var k, d, n :| 0 <= k < |steps| && Overtakes(states[k], steps[k], d, n);
      OvertakingIsOutOfOrder(states, steps, k, d, n);
    }
  }

  /** A call starts only when no other is under way. */
  ghost predicate NonOverlapping(states: seq<State>, steps: seq<Step>)
    requires |states| == |steps| + 1
  {
    forall k :: 0 <= k < |steps| && steps[k].BumpVersion? ==> states[k].callers == map[]
  }

  lemma {:induction false} AtMostOneCaller(states: seq<State>, steps: seq<Step>, k: nat)
    requires IsRun(states, steps) && NonOverlapping(states, steps) && k < |states|
    ensures forall c, d :: c in states[k].callers && d in states[k].callers ==> c == d
    decreases k
  {
    if k > 0 {
      AtMostOneCaller(states, steps, k - 1);
      assert Taken(states[k - 1], steps[k - 1], states[k]);
    }
  }

  /** Calls that do not overlap are recorded in sequence order at every moment. */
  lemma NonOverlappingInOrder(states: seq<State>, steps: seq<Step>, k: nat)
    requires IsRun(states, steps) && NonOverlapping(states, steps) && k < |states|
    ensures InOrder(states[k].pushes)
  {
    forall j, d, n | 0 <= j < |steps| ensures !Overtakes(states[j], steps[j], d, n) {
      AtMostOneCaller(states, steps, j);
    }
    NoOvertakingInOrder(states, steps, k);
  }

  function Visible(events: seq<Event>, includeTargeted: bool): seq<Event>
  {
    if events == [] then []
    else (if includeTargeted || !events[0].targeted then [events[0]] else []) + Visible(events[1..], includeTargeted)
  }

  lemma VisibleFrom(recent: seq<Event>, i: nat, includeTargeted: bool)
    requires i < |recent|
    ensures Visible(recent[i..], includeTargeted) ==
      (if includeTargeted || !recent[i].targeted then [recent[i]] else []) + Visible(recent[i + 1..], includeTargeted)
  {
    assert recent[i..][1..] == recent[i + 1..];
  }

  lemma VisibleNone(events: seq<Event>, includeTargeted: bool)
    requires events == []
    ensures Visible(events, includeTargeted) == []
  {
  }

  lemma {:induction false} VisibleAll(events: seq<Event>)
    ensures Visible(events, true) == events
  {
    if events != [] {
      VisibleAll(events[1..]);
    }
  }

  function Drop(events: seq<Event>, n: nat): seq<Event>
  {
    if n <= |events| then events[n..] else []
  }

  /** In order, a page from a cursor within the window is the first visible events of
      the history after the cursor, and for a reader of all events the stretch of the
      history right after it. */
  lemma InOrderPageIsSlice(s: State, q: Query)
    requires MirrorInv(s) && InOrder(s.pushes) && q.after + |s.recent| >= |s.sent|
    ensures Page(s.recent, q) == Slice(Visible(Drop(s.sent, q.after), q.includeTargeted), 0, Bound(q))
    ensures q.includeTargeted ==> Page(s.recent, q) == Slice(s.sent, q.after, Bound(q))
  {
    hide FirstSelected;
    hide Visible;
    hide MirrorInv;
    hide InOrder;
    var window := |s.sent| - |s.recent|;
    RecentIsNumbered(s);
    FirstSelectedVisible(s.recent, window, q, Bound(q));
    assert Drop(s.recent, q.after - window) == Drop(s.sent, q.after);
    VisibleAll(Drop(s.sent, q.after));
    if q.after <= |s.sent| {
      SliceOfSuffix(s.sent, q.after, 0, Bound(q));
    }
    hide Slice;
  }

  /** The retained events are a suffix of the history and keep its numbers. */
  lemma RecentIsNumbered(s: State)
    requires MirrorInv(s) && InOrder(s.pushes)
    ensures |s.recent| <= |s.sent| && s.recent == s.sent[|s.sent| - |s.recent|..]
    ensures forall i :: 0 <= i < |s.recent| ==> s.recent[i].seqNo == |s.sent| - |s.recent| + i + 1
  {
    var window := |s.sent| - |s.recent|;
    forall i | 0 <= i < |s.recent| ensures s.recent[i].seqNo == window + i + 1 {
      assert s.recent[i] == s.sent[window + i] == s.pushes[window + i].event;
    }
  }

  lemma {:induction false} FirstSelectedVisible(events: seq<Event>, base: nat, q: Query, n: nat)
    requires forall i :: 0 <= i < |events| ==> events[i].seqNo == base + i + 1
    ensures FirstSelected(events, q, n) ==
      Slice(Visible(Drop(events, if q.after <= base then 0 else q.after - base), q.includeTargeted), 0, n)
    decreases |events|
  {
    if events != [] && n > 0 {
      if base < q.after {
        FirstSelectedVisible(events[1..], base + 1, q, n);
        assert Drop(events, q.after - base) == Drop(events[1..], q.after - base - 1);
      } else {
        assert Drop(events, 0) == events && Drop(events[1..], 0) == events[1..];
        if Selected(events[0], q) {
          FirstSelectedVisible(events[1..], base + 1, q, n - 1);
          SliceHead(Visible(events, q.includeTargeted), n);
        } else {
          FirstSelectedVisible(events[1..], base + 1, q, n);
        }
      }
    }
  }

  // ------------------------------------------------------------ the moves of a wait

  /** What one step may do to a wait call: it registers, checks, and blocks or returns
      what it found; blocked, it starts over after a notification or gives up empty-handed. */
  predicate WaitMoves(before: Waiter, after: Waiter, notifications: nat)
  {
    after == before ||
    (after.query == before.query &&
      match before
      case Looping(_) => after.Armed? && after.armedAt == notifications
      case Armed(_, armedAt) => (after.Returned? && after.events != []) || (after.Blocked? && after.armedAt == armedAt)
      case Blocked(_, armedAt) => (after.Looping? && armedAt < notifications) || (after.Returned? && after.events == [])
      case Returned(_, _) => false)
  }

  lemma WaitStep(s: State, step: Step, s': State, w: nat)
    requires Taken(s, step, s') && w in s.waiters
    ensures w in s'.waiters && WaitMoves(s.waiters[w], s'.waiters[w], s.notifications)
  {
    hide Page;
  }

  /** In every interleaving a wait call goes through its moves in order, and one that has
      returned stays as it returned. */
  lemma {:induction false} ReturnedIsFinal(states: seq<State>, steps: seq<Step>, k: nat, l: nat, w: nat)
    requires IsRun(states, steps) && k <= l < |states| && w in states[k].waiters
    ensures w in states[l].waiters && states[l].waiters[w].query == states[k].waiters[w].query
    ensures states[k].waiters[w].Returned? ==> states[l].waiters[w] == states[k].waiters[w]
    decreases l
  {
    if k < l {
      ReturnedIsFinal(states, steps, k, l - 1, w);
      assert Taken(states[l - 1], steps[l - 1], states[l]);
      hide Taken;
      WaitStep(states[l - 1], steps[l - 1], states[l], w);
    }
  }

  // ------------------------------------------------------------ following the broadcast

  predicate IsVisible(e: Event, includeTargeted: bool)
  {
    includeTargeted || !e.targeted
  }

  /** The number a subscriber has last passed on, after some of the broadcast: it passes on
      a visible event only if its number is greater. */
  function LastPassed(sent: seq<Event>, after: nat, includeTargeted: bool): int
  {
    if sent == [] then after
    else
      var last := LastPassed(sent[..|sent| - 1], after, includeTargeted);
      var e := sent[|sent| - 1];
      if IsVisible(e, includeTargeted) && e.seqNo > last then e.seqNo else last
  }

  /** Event `i` of the broadcast is passed on. */
  predicate PassedOn(sent: seq<Event>, after: nat, includeTargeted: bool, i: nat)
    requires i < |sent|
  {
    IsVisible(sent[i], includeTargeted) && sent[i].seqNo > LastPassed(sent[..i], after, includeTargeted)
  }

  ghost predicate BelowAll(sent: seq<Event>, after: nat, includeTargeted: bool, n: int)
  {
    n > after && forall j :: 0 <= j < |sent| && IsVisible(sent[j], includeTargeted) ==> sent[j].seqNo < n
  }

  lemma {:induction false} LastPassedIsGreatest(sent: seq<Event>, after: nat, includeTargeted: bool, n: int)
    ensures n > LastPassed(sent, after, includeTargeted) <==> BelowAll(sent, after, includeTargeted, n)
  {
    if sent != [] {
      var k := |sent| - 1;
      LastPassedIsGreatest(sent[..k], after, includeTargeted, n);
      assert forall j :: 0 <= j < k ==> sent[..k][j] == sent[j];
    }
  }

  /** In every broadcast, a subscriber misses a visible event beyond its cursor exactly when
      a visible event with a number as large was broadcast before it. */
  lemma PassedOnExactly(sent: seq<Event>, after: nat, includeTargeted: bool, i: nat)
    requires i < |sent|
    ensures PassedOn(sent, after, includeTargeted, i) <==>
      && IsVisible(sent[i], includeTargeted) && sent[i].seqNo > after
      && forall j :: 0 <= j < i && IsVisible(sent[j], includeTargeted) ==> sent[j].seqNo < sent[i].seqNo
  {
    LastPassedIsGreatest(sent[..i], after, includeTargeted, sent[i].seqNo);
    assert forall j :: 0 <= j < i ==> sent[..i][j] == sent[j];
  }

  ghost predicate AllPassedOn(sent: seq<Event>)
  {
    forall i :: 0 <= i < |sent| ==> PassedOn(sent, 0, true, i)
  }

  /** Numbers that increase, and are all the numbers from one on, are in order. */
  lemma {:induction false} IncreasingIsInOrder(pushes: seq<Push>, seqNo: nat, i: nat)
    requires forall a, b :: 0 <= a < b < |pushes| ==> pushes[a].event.seqNo < pushes[b].event.seqNo
    requires forall n :: 1 <= n <= seqNo <==> Pushed(pushes, n)
    requires i < |pushes|
    ensures forall a :: 0 <= a <= i ==> pushes[a].event.seqNo == a + 1
  {
    if i > 0 {
      IncreasingIsInOrder(pushes, seqNo, i - 1);
    }
    var n := pushes[i].event.seqNo;
    assert PushedAt(pushes, i, n);
    assert Pushed(pushes, n);
    assert n >= i + 1 by {
      if i > 0 {
        assert pushes[i - 1].event.seqNo == i;
      }
    }
    assert Pushed(pushes, i + 1);
    var j :| PushedAt(pushes, j, i + 1);
  }

  /** Once all calls are done, a subscriber from the start has been passed every event if
      and only if no push overtook a call holding a smaller number. */
  lemma SubscriberReceivesAllExactly(states: seq<State>, steps: seq<Step>)
    requires IsRun(states, steps) && states[|steps|].callers == map[]
    ensures AllPassedOn(states[|steps|].sent) <==> NoOvertaking(states, steps)
  {
    var end := states[|steps|];
    InOrderExactly(states, steps);
    QuiescentAccounts(states, steps, |steps|);
    EventsAreNumberedSafely(states, steps, |steps|);
    hide IsRun;
    hide NoOvertaking;
    hide Sum;
    forall i | 0 <= i < |end.sent|
      ensures PassedOn(end.sent, 0, true, i) <==> forall j :: 0 <= j < i ==> end.sent[j].seqNo < end.sent[i].seqNo
    {
      PassedOnExactly(end.sent, 0, true, i);
    }
    hide PassedOn;
    if AllPassedOn(end.sent) && end.pushes != [] {
      IncreasingIsInOrder(end.pushes, end.seqNo, |end.pushes| - 1);
    }
  }

  // ------------------------------------------------------------ overtaking happens

  const A_CALL := Call(Presence, "presence.changed", "", false)

  /** Caller 0 takes number 1, then caller 1 takes number 2 ... */
  const TWO_NUMBERS := [BumpVersion(0, A_CALL), TakeSeq(0), BumpVersion(1, A_CALL), TakeSeq(1)]

  /** ... and one caller finishes its call alone. */
  function Finishing(c: nat): seq<Step>
  {
    [LoadVersion(c), LoadVersion(c), LoadVersion(c), LoadVersion(c), LoadVersion(c), PushEvent(c)]
  }

  ghost predicate IsPath(states: seq<State>, steps: seq<Step>)
  {
    |states| == |steps| + 1 && forall i :: 0 <= i < |steps| ==> Taken(states[i], steps[i], states[i + 1])
  }

  lemma PathConcat(p: seq<State>, xs: seq<Step>, q: seq<State>, ys: seq<Step>)
    requires IsPath(p, xs) && IsPath(q, ys) && p[|xs|] == q[0]
    ensures IsPath(p + q[1..], xs + ys)
    ensures (p + q[1..])[0] == p[0] && (p + q[1..])[|xs| + |ys|] == q[|ys|]
  {
    hide Taken;
    var r := p + q[1..];
    assert forall i :: |xs| <= i <= |xs| + |ys| ==> r[i] == q[i - |xs|];
  }

  /** A caller left alone loads the five current versions and pushes. */
  lemma FinishAlone(s: State, c: nat) returns (states: seq<State>)
    requires |s.versions| == 5 && c in s.callers && s.callers[c].Sequenced? && s.callers[c].loaded == []
    ensures IsPath(states, Finishing(c)) && states[0] == s
    ensures var event := EventOf(s.callers[c].(loaded := s.versions));
      states[6] == s.(callers := s.callers - {c}, recent := Last(s.recent + [event], RECENT_LIMIT), sent := s.sent + [event],
                      pushes := s.pushes + [Push(c, event)], notifications := s.notifications + 1)
  {
    states := [s];
    for k := 0 to 5
      invariant |states| == k + 1 && states[0] == s
      invariant forall i :: 0 <= i < k ==> Taken(states[i], Finishing(c)[i], states[i + 1])
      invariant states[k] == s.(callers := s.callers[c := s.callers[c].(loaded := s.versions[..k])])
    {
      assert s.versions[..k + 1] == s.versions[..k] + [s.versions[k]];
      states := states + [Apply(states[k], LoadVersion(c))];
    }
    assert s.versions[..5] == s.versions;
    assert states[5].callers - {c} == s.callers - {c};
    states := states + [Apply(states[5], PushEvent(c))];
  }

  lemma TwoNumbersTaken() returns (states: seq<State>)
    ensures IsPath(states, TWO_NUMBERS) && states[0] == INITIAL
    ensures states[4] == INITIAL.(seqNo := 2, versions := [2, 0, 0, 0, 0],
      callers := map[0 := Sequenced(A_CALL, 1, []), 1 := Sequenced(A_CALL, 2, [])])
  {
    var s1 := Apply(INITIAL, TWO_NUMBERS[0]);
    var s2 := Apply(s1, TWO_NUMBERS[1]);
    var s3 := Apply(s2, TWO_NUMBERS[2]);
    var s4 := Apply(s3, TWO_NUMBERS[3]);
    states := [INITIAL, s1, s2, s3, s4];
  }

  /** Overlapping calls can be recorded out of sequence order; a reader that has seen
      number 2 then finds nothing, although number 1 is retained, and whatever its limit. */
  lemma OvertakingHappens() returns (states: seq<State>, steps: seq<Step>, seen: State, end: State)
    ensures IsRun(states, steps) && end == states[|steps|] && seen in states && end.callers == map[]
    ensures |end.sent| == 2 && end.sent[0].seqNo == 2 && end.sent[1].seqNo == 1 && end.recent == end.sent
    ensures Page(seen.recent, Query(0, 10, true)) == [end.sent[0]]
    ensures forall q: Query :: q.after >= 2 ==> Page(end.recent, q) == []
  {
    var p := TwoNumbersTaken();
    var q := FinishAlone(p[4], 1);
    assert q[6].callers == map[0 := Sequenced(A_CALL, 1, [])];
    var r := FinishAlone(q[6], 0);
    seen, end := q[6], r[6];
    PathConcat(p, TWO_NUMBERS, q, Finishing(1));
    var pq := p + q[1..];
    PathConcat(pq, TWO_NUMBERS + Finishing(1), r, Finishing(0));
    states, steps := pq + r[1..], TWO_NUMBERS + Finishing(1) + Finishing(0);
    assert states[10] == seen;
    hide Taken;
    assert seen.recent == [end.sent[0]] && seen.recent[1..] == [];
    assert FirstSelected(seen.recent[1..], Query(0, 10, true), 9) == [];
    forall q: Query | q.after >= 2 ensures Page(end.recent, q) == [] {
      PageEmptyExactly(end.recent, q);
    }
  }
}
