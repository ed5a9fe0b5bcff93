/** Device pairing with its session store (crates/app/src/session/repository.rs). The
    store can fail before it writes and after it has written, and it resolves a request
    only while its own row is still pending. */
module PairingStore {
  import opened Text
  import opened Identifiers
  import opened Pairing

  /** The registry, the status of each stored row, and the resolutions that were written
      although the call was told that it failed. */
  datatype Stored = Stored(base: State, rows: map<string, Status>, lost: map<string, Status>)

  const BLANK := Stored(State(EMPTY, map[]), map[], map[])

  /** The requests, with the approval in progress taken as done. */
  function InMemory(core: Core): map<string, Request>
  {
    if core.held.None? then core.requests else core.requests[core.held.value.id := core.held.value]
  }

  predicate RowPending(s: Stored, id: string)
  {
    id in s.rows && s.rows[id] == Pending
  }

  /** A row is resolved only while it is pending; a call that succeeds on a pending row has written it. */
  ghost predicate Resolves(s: Stored, id: string, status: Status, persisted: bool, wrote: bool, s': Stored)
  {
    if RowPending(s, id) then
      && (persisted ==> wrote)
      && s'.rows == (if wrote then s.rows[id := status] else s.rows)
      && s'.lost == (if wrote && !persisted then s.lost[id := status] else s.lost)
    else
      !wrote && s'.rows == s.rows && s'.lost == s.lost
  }

  /** One step of the registry with what it wrote. An insert is read back before it counts;
      a rejection does not look at whether its update found a pending row; an approval does. */
  ghost predicate NextStored(s: Stored, step: Step, wrote: bool, s': Stored, hash: string -> string)
  {
    && Next(s.base, step, s'.base, hash)
    && match step
       case ReadApproved(_, _) => !wrote && s'.rows == s.rows && s'.lost == s.lost
       case StoreApproval => !wrote && s'.rows == s.rows && s'.lost == s.lost
       case EnterRequests(c, _, random, persisted) =>
         && s'.lost == s.lost
         && if HasPending(s.base.core, s.base.connects[c].ask) then !wrote && s'.rows == s.rows
            else
              && (persisted ==> wrote)
              && s'.rows == if wrote then s.rows[MakeId(REQUEST_PREFIX, s.base.core.nonce + 1, random) := Pending] else s.rows
       case RejectRequest(id, _, persisted) => Resolves(s, id, Rejected, persisted, wrote, s')
       case PublishApproval(id, _, _, _, persisted) =>
         Resolves(s, id, Approved, persisted, wrote, s') && (!RowPending(s, id) ==> !persisted)
  }

  ghost predicate IsStoredRun(states: seq<Stored>, steps: seq<Step>, wrote: seq<bool>, hash: string -> string)
  {
    && |states| == |steps| + 1 == |wrote| + 1 && states[0] == BLANK
    && forall i :: 0 <= i < |steps| ==> NextStored(states[i], steps[i], wrote[i], states[i + 1], hash)
  }

  // ------------------------------------------------------------ the account

  /** What is known of a request in memory and its row. */
  ghost predicate RowInv(request: Request, row: Status, lost: Option<Status>)
  {
    match lost
    case None => row == request.status
    case Some(status) => row == status != Pending && request.status != Approved
  }

  function Lookup(m: map<string, Status>, id: string): Option<Status>
  {
    if id in m then Some(m[id]) else None
  }

  ghost predicate RowsInv(s: Stored)
  {
    && (forall id :: id in InMemory(s.base.core) ==>
          id in s.rows && RowInv(InMemory(s.base.core)[id], s.rows[id], Lookup(s.lost, id)))
    && (forall id :: id in s.lost ==> id in InMemory(s.base.core))
  }

  ghost predicate Numbering(s: Stored)
  {
    forall id :: id in s.rows ==> Numbered(id, s.base.core.nonce)
  }

  ghost predicate StoredInv(s: Stored, hash: string -> string)
  {
    Inv(s.base.core, hash) && RowsInv(s) && Numbering(s)
  }

  lemma NewIdIsUnstored(s: Stored, random: nat)
    requires Numbering(s)
    ensures MakeId(REQUEST_PREFIX, s.base.core.nonce + 1, random) !in s.rows
  {
    var id := MakeId(REQUEST_PREFIX, s.base.core.nonce + 1, random);
    if id in s.rows {
      var k: nat, r: nat :| k <= s.base.core.nonce && id == MakeId(REQUEST_PREFIX, k, r);
      IdDistinct(REQUEST_PREFIX, k, r, s.base.core.nonce + 1, random);
    }
  }

  lemma NumberingStep(s: Stored, step: Step, wrote: bool, s': Stored, hash: string -> string)
    requires StoredInv(s, hash) && NextStored(s, step, wrote, s', hash)
    ensures Numbering(s')
  {
    hide MakeId;
    hide RowsInv;
    forall id | id in s'.rows ensures Numbered(id, s'.base.core.nonce) {
      if id in s.rows {
        NumberedLater(id, s.base.core.nonce, s'.base.core.nonce);
      } else {
        assert step.EnterRequests? && id == MakeId(REQUEST_PREFIX, s.base.core.nonce + 1, step.random);
      }
    }
  }

  lemma CreateKeepsRows(s: Stored, step: Step, wrote: bool, s': Stored, hash: string -> string)
    requires StoredInv(s, hash) && NextStored(s, step, wrote, s', hash) && step.EnterRequests?
    ensures RowsInv(s')
  {
    NewIdIsUnstored(s, step.random);
    hide MakeId;
    hide Inv;
    hide Numbering;
    hide Resolves;
    hide PendingFor;
  }

  /** What a resolution does in memory. */
  lemma ResolvedInMemory(s: State, step: Step, s': State, hash: string -> string) returns (r: Request)
    requires Inv(s.core, hash) && Next(s, step, s', hash) && (step.RejectRequest? || step.PublishApproval?)
    ensures step.id in InMemory(s.core) && InMemory(s.core)[step.id].status == Pending
    ensures r.status == if step.RejectRequest? then Rejected else Approved
    ensures InMemory(s'.core) == if step.persisted then InMemory(s.core)[step.id := r] else InMemory(s.core)
  {
    RequestHasItsId(s.core, step.id, hash);
    hide MakeId;
    hide Inv;
    r := if step.RejectRequest? then RejectedRecord(s.core.requests[step.id], step.now)
      else ApprovedRecord(s.core.requests[step.id],
                          ApprovalFor(s.core, s.core.requests[step.id], step.now, step.random, step.random'));
  }

  /** The request resolved and its row. */
  lemma RowResolved(s: Stored, id: string, status: Status, persisted: bool, wrote: bool, s': Stored, before: Request, after: Request)
    requires Resolves(s, id, status, persisted, wrote, s') && id in s.rows && before.status == Pending && status != Pending
    requires status == Approved && !RowPending(s, id) ==> !persisted
    requires RowInv(before, s.rows[id], Lookup(s.lost, id))
    requires if persisted then after.status == status else after == before
    ensures id in s'.rows && RowInv(after, s'.rows[id], Lookup(s'.lost, id))
    ensures s'.lost.Keys <= s.lost.Keys + {id}
    ensures forall other :: other != id ==>
      (other in s'.rows <==> other in s.rows) && Lookup(s'.rows, other) == Lookup(s.rows, other)
      && Lookup(s'.lost, other) == Lookup(s.lost, other)
  {
  }

  lemma ResolveKeepsRows(s: Stored, step: Step, wrote: bool, s': Stored, hash: string -> string)
    requires StoredInv(s, hash) && NextStored(s, step, wrote, s', hash) && (step.RejectRequest? || step.PublishApproval?)
    ensures RowsInv(s')
  {
    hide MakeId;
    hide Next;
    hide Inv;
    hide Numbering;
    hide InMemory;
    hide Resolves;
    hide RowInv;
    hide HasPending;
    var r := ResolvedInMemory(s.base, step, s'.base, hash);
    var before, after := InMemory(s.base.core), InMemory(s'.base.core);
    var id := step.id;
    assert RowInv(before[id], s.rows[id], Lookup(s.lost, id));
    RowResolved(s, id, r.status, step.persisted, wrote, s', before[id], after[id]);
    hide NextStored;
    forall other | other in after ensures other in s'.rows && RowInv(after[other], s'.rows[other], Lookup(s'.lost, other)) {
      if other != id {
        assert after[other] == before[other] && Lookup(s'.rows, other) == Lookup(s.rows, other);
        assert RowInv(before[other], s.rows[other], Lookup(s.lost, other));
      }
    }
  }

  lemma RequestHasItsId(core: Core, id: string, hash: string -> string)
    requires Inv(core, hash) && id in core.requests
    ensures core.requests[id].id == id
  {
    hide Numbered;
  }

  lemma OtherKeepsMemory(s: State, step: Step, s': State, hash: string -> string)
    requires Next(s, step, s', hash) && (step.ReadApproved? || step.StoreApproval?)
    ensures InMemory(s'.core) == InMemory(s.core)
  {
    hide MakeId;
  }

  lemma StoredStep(s: Stored, step: Step, wrote: bool, s': Stored, hash: string -> string)
    requires StoredInv(s, hash) && NextStored(s, step, wrote, s', hash)
    ensures StoredInv(s', hash)
  {
    hide MakeId;
    hide Next;
    hide Inv;
    hide Resolves;
    hide HasPending;
    NumberingStep(s, step, wrote, s', hash);
    StepInv(s.base, step, s'.base, hash);
    if step.EnterRequests? {
      CreateKeepsRows(s, step, wrote, s', hash);
    } else if step.RejectRequest? || step.PublishApproval? {
      ResolveKeepsRows(s, step, wrote, s', hash);
    } else {
      OtherKeepsMemory(s.base, step, s'.base, hash);
      hide Numbering;
      hide InMemory;
    }
  }

  lemma {:induction false} StoredRunInv(states: seq<Stored>, steps: seq<Step>, wrote: seq<bool>, hash: string -> string, k: nat)
    requires IsStoredRun(states, steps, wrote, hash) && k < |states|
    ensures StoredInv(states[k], hash)
    decreases k
  {
    if k > 0 {
      hide StoredInv;
      hide NextStored;
      StoredRunInv(states, steps, wrote, hash, k - 1);
      StoredStep(states[k - 1], steps[k - 1], wrote[k - 1], states[k], hash);
    }
  }

  /** In every interleaving and however the store fails, each request in memory has a row.
      The two show the same status if and only if no resolution of the request was written
      and then reported as failed, or the lost one was a rejection and a later rejection
      went through. */
  lemma StoreAgreesExactly(states: seq<Stored>, steps: seq<Step>, wrote: seq<bool>, hash: string -> string, k: nat, id: string)
    requires IsStoredRun(states, steps, wrote, hash) && k < |states| && id in InMemory(states[k].base.core)
    ensures id in states[k].rows
    ensures var status := InMemory(states[k].base.core)[id].status;
      status == states[k].rows[id] <==>
      id !in states[k].lost || (states[k].lost[id] == Rejected && status == Rejected)
  {
    StoredRunInv(states, steps, wrote, hash, k);
    hide Inv;
    hide Numbering;
    assert RowInv(InMemory(states[k].base.core)[id], states[k].rows[id], Lookup(states[k].lost, id));
  }

  /** No status is shown that the store might still undo: what is resolved in memory is resolved in its row. */
  lemma ResolvedIsStored(states: seq<Stored>, steps: seq<Step>, wrote: seq<bool>, hash: string -> string, k: nat, id: string)
    requires IsStoredRun(states, steps, wrote, hash) && k < |states| && id in InMemory(states[k].base.core)
    requires InMemory(states[k].base.core)[id].status != Pending
    ensures id in states[k].rows && states[k].rows[id] != Pending
    ensures InMemory(states[k].base.core)[id].status == Approved ==> states[k].rows[id] == Approved
  {
    StoredRunInv(states, steps, wrote, hash, k);
    hide Inv;
    hide Numbering;
    assert RowInv(InMemory(states[k].base.core)[id], states[k].rows[id], Lookup(states[k].lost, id));
  }

  // ------------------------------------------------------------ a lost approval

  /** A request is made, its approval is written but reported as failed, and then it is rejected. */
  const LOST_STEPS: seq<Step> := [
    ReadApproved(0, AN_ASK), EnterRequests(0, 0, 0, true),
    PublishApproval(MakeId(REQUEST_PREFIX, 1, 0), 0, 0, 0, false), RejectRequest(MakeId(REQUEST_PREFIX, 1, 0), 0, true)]

  /** Memory and store can disagree for good: rejected here, approved there. */
  lemma LostApprovalHappens(hash: string -> string) returns (states: seq<Stored>)
    ensures IsStoredRun(states, LOST_STEPS, [false, true, true, false], hash)
    ensures var id := MakeId(REQUEST_PREFIX, 1, 0);
      && id in states[4].base.core.requests && states[4].base.core.requests[id].status == Rejected
      && id in states[4].rows && states[4].rows[id] == Approved
  {
    var id := MakeId(REQUEST_PREFIX, 1, 0);
    hide MakeId;
    var s0 := BLANK;
    var s1 := s0.(base := State(EMPTY, map[0 := MustPair(AN_ASK)]));
    var made := NewRequest(id, AN_ASK, 0);
    var s2 := Stored(State(Created(EMPTY, AN_ASK, 0, 0), s1.base.connects[0 := Answered(AN_ASK, Ok(PairingRequired(made, true)))]),
                     map[id := Pending], map[]);
    var s3 := Stored(s2.base.(core := s2.base.core.(nonce := s2.base.core.nonce + 2)), map[id := Approved], map[id := Approved]);
    var s4 := s3.(base := s3.base.(core := Refused(s3.base.core, id, 0)));
    assert NextStored(s0, LOST_STEPS[0], false, s1, hash);
    assert NextStored(s1, LOST_STEPS[1], true, s2, hash);
    assert NextStored(s2, LOST_STEPS[2], true, s3, hash);
    assert NextStored(s3, LOST_STEPS[3], false, s4, hash);
    states := [s0, s1, s2, s3, s4];
  }
}
