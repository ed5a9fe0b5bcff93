/** The event manager as an object, for calls that do not overlap
    (crates/app/src/control_plane.rs). Each call is an uninterrupted path of the
    interleaving machine of `EventPlane`. */
module EventManager {
  import opened EventPlane
  import opened Windows

  /** The machine's state after `caller` has made a whole call alone. */
  function CallAlone(s: State, caller: nat, call: Call): State
    requires |s.versions| == 5
  {
    var i := LaneIndex(call.lane);
    var versions := s.versions[i := s.versions[i] + 1];
    var event := Event(call.kind, s.seqNo + 1, versions, call.payload, call.targeted);
    s.(seqNo := s.seqNo + 1, versions := versions, recent := Last(s.recent + [event], RECENT_LIMIT),
       sent := s.sent + [event], pushes := s.pushes + [Push(caller, event)], notifications := s.notifications + 1)
  }

  /** An uninterrupted call is a path of the machine. */
  lemma CallAloneIsPath(s: State, caller: nat, call: Call) returns (states: seq<State>)
    requires |s.versions| == 5 && caller !in s.callers
    ensures IsPath(states, [BumpVersion(caller, call), TakeSeq(caller)] + Finishing(caller))
    ensures states[0] == s && states[8] == CallAlone(s, caller, call)
  {
    var s1 := Apply(s, BumpVersion(caller, call));
    var s2 := Apply(s1, TakeSeq(caller));
    var tail := FinishAlone(s2, caller);
    assert s2.callers - {caller} == s.callers;
    assert IsPath([s, s1, s2], [BumpVersion(caller, call), TakeSeq(caller)]);
    PathConcat([s, s1, s2], [BumpVersion(caller, call), TakeSeq(caller)], tail, Finishing(caller));
    states := [s, s1, s2] + tail[1..];
  }

  lemma {:induction false} PathInv(states: seq<State>, steps: seq<Step>, k: nat)
    requires IsPath(states, steps) && k < |states| && Inv(states[0])
    ensures Inv(states[k])
    decreases k
  {
    if k > 0 {
      hide Inv;
      hide Taken;
      PathInv(states, steps, k - 1);
      StepInv(states[k - 1], steps[k - 1], states[k]);
    }
  }

  /** Alone, a call keeps every invariant of the machine and the order of the history. */
  lemma CallAloneKeepsInv(s: State, caller: nat, call: Call)
    requires Inv(s) && s.callers == map[] && InOrder(s.pushes)
    ensures Inv(CallAlone(s, caller, call)) && InOrder(CallAlone(s, caller, call).pushes)
  {
    var states := CallAloneIsPath(s, caller, call);
    PathInv(states, [BumpVersion(caller, call), TakeSeq(caller)] + Finishing(caller), 8);
    IdleCounts(s);
  }

  /** With no call in flight and the history in order, the history holds every number. */
  lemma IdleCounts(s: State)
    requires Inv(s) && s.callers == map[] && InOrder(s.pushes)
    ensures |s.sent| == |s.pushes| == s.seqNo == Sum(s.versions)
  {
    assert BumpedCallers(s.callers) == {};
    hide Sum;
    if |s.pushes| > 0 {
      assert PushedAt(s.pushes, |s.pushes| - 1, |s.pushes|);
    }
    if s.seqNo > 0 {
      assert Pushed(s.pushes, s.seqNo);
      var i :| PushedAt(s.pushes, i, s.seqNo);
    }
  }

  lemma FiveLanes(s: State)
    requires Inv(s)
    ensures |s.versions| == 5
  {
  }

  /** One lane's version has grown by one; the lanes are presence, health,
      sessions, approvals and acp, in that order. */
  predicate Raised(before: seq<nat>, lane: Lane, after: seq<nat>)
  {
    && |before| == |after| == 5
    && after[0] == before[0] + (if lane.Presence? then 1 else 0)
    && after[1] == before[1] + (if lane.Health? then 1 else 0)
    && after[2] == before[2] + (if lane.Sessions? then 1 else 0)
    && after[3] == before[3] + (if lane.Approvals? then 1 else 0)
    && after[4] == before[4] + (if lane.Acp? then 1 else 0)
  }

  class Manager {
    var seqNo: nat
    var versions: seq<nat>
    var recent: seq<Event>
    var sent: seq<Event>
    ghost var pushes: seq<Push>
    var notifications: nat

    ghost function State(): State
      reads this
    {
      EventPlane.State(seqNo, versions, map[], recent, sent, pushes, notifications, map[])
    }

    ghost predicate Valid()
      reads this
    {
      Inv(State()) && InOrder(pushes)
    }

    constructor ()
      ensures State() == INITIAL && Valid()
    {
      seqNo, versions, recent, sent, pushes, notifications := 0, [0, 0, 0, 0, 0], [], [], [], 0;
      new;
      InitialInv();
    }

    /** Records one event: the next number, on every version of its moment, last in
        the log, the broadcast and the retained events. */
    method RecordEvent(call: Call, ghost caller: nat) returns (event: Event)
      requires Valid()
      modifies this
      ensures Valid() && State() == CallAlone(old(State()), caller, call)
      ensures sent == old(sent) + [event] && event.seqNo == |sent| == Sum(event.versions)
      ensures event.versions == versions && Raised(old(versions), call.lane, versions)
      ensures event.kind == call.kind && event.payload == call.payload && event.targeted == call.targeted
    {
      hide Inv;
      hide InOrder;
      hide Sum;
      hide Raised;
      hide LaneIndex;
      FiveLanes(State());
      CallAloneKeepsInv(State(), caller, call);
      IdleCounts(CallAlone(State(), caller, call));
      BumpVersion(call.lane);
      seqNo := seqNo + 1;
      event := Event(call.kind, seqNo, StateVersion(), call.payload, call.targeted);
      PushRecentEvent(event);
      pushes := pushes + [Push(caller, event)];
      assert State() == CallAlone(old(State()), caller, call);
    }

    method BumpVersion(lane: Lane)
      requires |versions| == 5
      modifies this`versions
      ensures versions == old(versions)[LaneIndex(lane) := old(versions)[LaneIndex(lane)] + 1]
      ensures Raised(old(versions), lane, versions)
    {
      versions := versions[LaneIndex(lane) := versions[LaneIndex(lane)] + 1];
    }

    function StateVersion(): seq<nat>
      reads this
    {
      versions
    }

    method PushRecentEvent(event: Event)
      modifies this`recent, this`sent, this`notifications
      ensures recent == Last(old(recent) + [event], RECENT_LIMIT)
      ensures sent == old(sent) + [event] && notifications == old(notifications) + 1
    {
      recent := recent + [event];
      while |recent| > RECENT_LIMIT
        invariant Last(recent, RECENT_LIMIT) == Last(old(recent) + [event], RECENT_LIMIT)
        invariant sent == old(sent) && notifications == old(notifications)
        decreases |recent|
      {
        recent := recent[1..];
      }
      sent := sent + [event];
      notifications := notifications + 1;
    }

    /** The first retained events beyond a cursor; from a cursor inside the window, the
        first visible events of the full log after it. */
    method RecentEventsAfter(query: Query) returns (events: seq<Event>)
      requires Valid()
      ensures events == Page(recent, query)
      ensures var all, n := AllSelected(Last(sent, 256), query), Max(1, query.limit);
        events == if |all| <= n then all else all[..n]
      ensures query.after + RECENT_LIMIT >= |sent| ==>
        events == Slice(Visible(Drop(sent, query.after), query.includeTargeted), 0, Bound(query))
    {
      events := CollectSelected(recent, query, Bound(query));
      PageIsFirstSelected(recent, query);
      if query.after + RECENT_LIMIT >= |sent| {
        InOrderPageIsSlice(State(), query);
      }
    }

    static method CollectSelected(recent: seq<Event>, query: Query, bound: nat) returns (events: seq<Event>)
      ensures events == FirstSelected(recent, query, bound)
    {
      events := [];
      var i := 0;
      while i < |recent| && |events| < bound
        invariant i <= |recent| && |events| <= bound
        invariant events + FirstSelected(recent[i..], query, bound - |events|) == FirstSelected(recent, query, bound)
      {
        assert recent[i..][1..] == recent[i + 1..];
        if Selected(recent[i], query) {
          events := events + [recent[i]];
        }
        i := i + 1;
      }
    }

    /** The last visible retained events, in log order. */
    method RecentEvents(limit: nat, includeTargeted: bool) returns (events: seq<Event>)
      requires Valid()
      ensures events == Last(Visible(Last(sent, RECENT_LIMIT), includeTargeted), if limit < 1 then 1 else Min(limit, RECENT_LIMIT))
    {
      var bound := if limit < 1 then 1 else Min(limit, RECENT_LIMIT);
      events := CollectVisible(recent, includeTargeted);
      if |events| > bound {
        events := events[|events| - bound..];
      }
    }

    static method CollectVisible(recent: seq<Event>, includeTargeted: bool) returns (events: seq<Event>)
      ensures events == Visible(recent, includeTargeted)
    {
      hide Visible;
      events := [];
      assert recent[0..] == recent;
      for i := 0 to |recent|
        invariant events + Visible(recent[i..], includeTargeted) == Visible(recent, includeTargeted)
      {
        VisibleFrom(recent, i, includeTargeted);
        if includeTargeted || !recent[i].targeted {
          events := events + [recent[i]];
        }
      }
      VisibleNone(recent[|recent|..], includeTargeted);
    }
  }
}
