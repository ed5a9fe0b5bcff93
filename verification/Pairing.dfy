/** Device pairing of the control plane (crates/app/src/control_plane.rs).
    `evaluate_connect` reads the approved devices under one lock and, if that
    decides nothing, looks for or creates a request under another; an approval
    publishes the device before it updates the request, holding the request lock
    throughout. Persisting may fail at any call. */
module Pairing {
  import opened Text
  import opened Identifiers

  datatype Status = Pending | Approved | Rejected

  datatype Request = Request(
    id: string, deviceId: string, clientId: string, publicKey: string, role: string, scopes: set<string>,
    status: Status, requestedAt: nat, resolvedAt: Option<nat>, tokenId: Option<string>, deviceToken: Option<string>)

  datatype ApprovedDevice = ApprovedDevice(
    deviceId: string, publicKey: string, role: string, scopes: set<string>, tokenId: string, tokenHash: string, approvedAt: nat)

  datatype Decision =
    | Authorized
    | PairingRequired(request: Request, created: bool)
    | DeviceTokenRequired
    | DeviceTokenInvalid

  /** What a device asks for when it connects, already normalised. */
  datatype Ask = Ask(deviceId: string, clientId: string, publicKey: string, role: string, scopes: set<string>, token: Option<string>)

  /** One approval, as the history remembers it: with the token handed out. */
  datatype Approval = Approval(
    requestId: string, deviceId: string, publicKey: string, role: string, scopes: set<string>,
    tokenId: string, token: string, at: nat)

  /** The registry with the history of approvals. `held` is the updated record of
      an approval in progress, which holds the lock on the requests. */
  datatype Core = Core(
    nonce: nat, requests: map<string, Request>, approved: map<string, ApprovedDevice>,
    approvals: seq<Approval>, held: Option<Request>)

  const EMPTY := Core(0, map[], map[], [], None)
  const REQUEST_PREFIX := "pair-"
  const TOKEN_ID_PREFIX := "cpdt-"
  const TOKEN_PREFIX := "cpd-"

  // ----------------------------------------------------------- what code does

  predicate ApprovedDeviceRequiresPairing(device: ApprovedDevice, role: string, scopes: set<string>)
  {
    device.role != role || !(scopes <= device.scopes)
  }

  /** The part of `evaluate_connect` under the lock of the approved devices: a decision, or none yet. */
  function Classify(found: Option<ApprovedDevice>, ask: Ask, hash: string -> string): Option<Decision>
  {
    if found.Some? && found.value.publicKey == ask.publicKey &&
       !ApprovedDeviceRequiresPairing(found.value, ask.role, ask.scopes) then
      match ask.token
      case Some(token) => Some(if hash(token) == found.value.tokenHash then Authorized else DeviceTokenInvalid)
      case None => Some(DeviceTokenRequired)
    else None
  }

  function Found(core: Core, deviceId: string): Option<ApprovedDevice>
  {
    if deviceId in core.approved then Some(core.approved[deviceId]) else None
  }

  predicate PendingFor(request: Request, ask: Ask)
  {
    request.status == Pending && request.deviceId == ask.deviceId && request.publicKey == ask.publicKey &&
    request.role == ask.role && request.scopes == ask.scopes
  }

  function NewRequest(id: string, ask: Ask, now: nat): Request
  {
    Request(id, ask.deviceId, ask.clientId, ask.publicKey, ask.role, ask.scopes, Pending, now, None, None, None)
  }

  function Created(core: Core, ask: Ask, now: nat, random: nat): Core
  {
    var id := MakeId(REQUEST_PREFIX, core.nonce + 1, random);
    core.(nonce := core.nonce + 1, requests := core.requests[id := NewRequest(id, ask, now)])
  }

  function ApprovalFor(core: Core, request: Request, now: nat, random: nat, random': nat): Approval
  {
    Approval(request.id, request.deviceId, request.publicKey, request.role, request.scopes,
             MakeId(TOKEN_ID_PREFIX, core.nonce + 1, random), MakeId(TOKEN_PREFIX, core.nonce + 2, random'), now)
  }

  function DeviceOf(a: Approval, hash: string -> string): ApprovedDevice
  {
    ApprovedDevice(a.deviceId, a.publicKey, a.role, a.scopes, a.tokenId, hash(a.token), a.at)
  }

  function ApprovedRecord(request: Request, a: Approval): Request
  {
    request.(status := Approved, resolvedAt := Some(a.at), tokenId := Some(a.tokenId), deviceToken := Some(a.token))
  }

  /** The approval is published; the request lock is still held. */
  function Published(core: Core, id: string, now: nat, random: nat, random': nat, hash: string -> string): Core
    requires id in core.requests
  {
    var a := ApprovalFor(core, core.requests[id], now, random, random');
    core.(nonce := core.nonce + 2, approved := core.approved[a.deviceId := DeviceOf(a, hash)],
          approvals := core.approvals + [a], held := Some(ApprovedRecord(core.requests[id], a)))
  }

  /** The held record is stored and the lock released. */
  function Stored(core: Core): Core
    requires core.held.Some?
  {
    core.(requests := core.requests[core.held.value.id := core.held.value], held := None)
  }

  function RejectedRecord(request: Request, now: nat): Request
  {
    request.(status := Rejected, resolvedAt := Some(now), tokenId := None, deviceToken := None)
  }

  function Refused(core: Core, id: string, now: nat): Core
    requires id in core.requests
  {
    core.(requests := core.requests[id := RejectedRecord(core.requests[id], now)])
  }

  // -------------------------------------------------------------- invariants

  ghost predicate Numbered(id: string, nonce: nat)
  {
    exists k: nat, random: nat :: k <= nonce && id == MakeId(REQUEST_PREFIX, k, random)
  }

  /** A token is there exactly when the request is approved. */
  predicate StatusInv(r: Request)
  {
    && (r.status == Approved <==> r.deviceToken.Some?)
    && (r.status == Approved <==> r.tokenId.Some?)
    && (r.status == Pending <==> r.resolvedAt.None?)
  }

  predicate SameIdentity(a: Request, b: Request)
  {
    a.deviceId == b.deviceId && a.publicKey == b.publicKey && a.role == b.role && a.scopes == b.scopes
  }

  predicate PendingAlike(a: Request, b: Request)
  {
    a.status == Pending && b.status == Pending && SameIdentity(a, b)
  }

  /** At most one pending request per device, key, role and scopes. */
  ghost predicate UniquePending(requests: map<string, Request>)
  {
    forall i, j :: i in requests && j in requests && PendingAlike(requests[i], requests[j]) ==> i == j
  }

  ghost predicate RequestsInv(core: Core)
  {
    && (forall id :: id in core.requests ==>
          core.requests[id].id == id && Numbered(id, core.nonce) && StatusInv(core.requests[id]))
    && UniquePending(core.requests)
  }

  ghost predicate HeldInv(core: Core)
  {
    core.held.Some? ==>
      var r := core.held.value;
      r.id in core.requests && core.requests[r.id].status == Pending && r.status == Approved &&
      StatusInv(r) && SameIdentity(r, core.requests[r.id])
  }

  function LastApproval(approvals: seq<Approval>, deviceId: string): Option<Approval>
  {
    if approvals == [] then None
    else if approvals[|approvals| - 1].deviceId == deviceId then Some(approvals[|approvals| - 1])
    else LastApproval(approvals[..|approvals| - 1], deviceId)
  }

  /** The device table holds the most recent approval of every device. */
  ghost predicate ApprovedInv(core: Core, hash: string -> string)
  {
    forall d :: Found(core, d) ==
      match LastApproval(core.approvals, d) { case Some(a) => Some(DeviceOf(a, hash)) case None => None }
  }

  /** The approved request an approval came from, stored or about to be. */
  ghost predicate Backed(core: Core, a: Approval)
  {
    a.requestId in core.requests &&
    var r := if core.held.Some? && core.held.value.id == a.requestId then core.held.value else core.requests[a.requestId];
    r.status == Approved && r.deviceToken == Some(a.token) && r.deviceId == a.deviceId &&
    r.publicKey == a.publicKey && r.role == a.role && r.scopes == a.scopes
  }

  ghost predicate ApprovalsInv(core: Core)
  {
    forall i :: 0 <= i < |core.approvals| ==> Backed(core, core.approvals[i])
  }

  ghost predicate Inv(core: Core, hash: string -> string)
  {
    RequestsInv(core) && HeldInv(core) && ApprovedInv(core, hash) && ApprovalsInv(core)
  }

  lemma FreshRequestId(core: Core, random: nat)
    requires RequestsInv(core)
    ensures MakeId(REQUEST_PREFIX, core.nonce + 1, random) !in core.requests
  {
    var id := MakeId(REQUEST_PREFIX, core.nonce + 1, random);
    if id in core.requests {
      var k: nat, r: nat :| k <= core.nonce && id == MakeId(REQUEST_PREFIX, k, r);
      IdDistinct(REQUEST_PREFIX, k, r, core.nonce + 1, random);
    }
  }

  lemma NumberedLater(id: string, n: nat, n': nat)
    requires Numbered(id, n) && n <= n'
    ensures Numbered(id, n')
  {
    hide MakeId;
    var k: nat, r: nat :| k <= n && id == MakeId(REQUEST_PREFIX, k, r);
  }

  /** Nothing that concerns devices and approvals has changed. */
  lemma ApprovalsUnchanged(core: Core, core': Core, hash: string -> string)
    requires ApprovedInv(core, hash) && ApprovalsInv(core)
    requires core'.approved == core.approved && core'.approvals == core.approvals && core'.held == core.held
    requires forall id :: id in core.requests ==> id in core'.requests
    requires forall id :: id in core.requests && core.requests[id].status == Approved ==> core'.requests[id] == core.requests[id]
    ensures ApprovedInv(core', hash) && ApprovalsInv(core')
  {
    assert forall d :: Found(core', d) == Found(core, d);
    hide LastApproval;
    forall i | 0 <= i < |core.approvals| ensures Backed(core', core.approvals[i]) {
      assert Backed(core, core.approvals[i]);
    }
  }

  /** The sequence counter may move on at any time. */
  lemma BumpKeepsInv(core: Core, n: nat, hash: string -> string)
    requires Inv(core, hash)
    ensures Inv(core.(nonce := core.nonce + n), hash)
  {
    var core' := core.(nonce := core.nonce + n);
    ApprovalsUnchanged(core, core', hash);
    hide ApprovedInv;
    hide ApprovalsInv;
    forall id | id in core.requests ensures Numbered(id, core.nonce + n) {
      NumberedLater(id, core.nonce, core.nonce + n);
    }
    hide Numbered;
  }

  lemma CreateKeepsInv(core: Core, ask: Ask, now: nat, random: nat, hash: string -> string)
    requires Inv(core, hash) && core.held.None?
    requires forall id :: id in core.requests ==> !PendingFor(core.requests[id], ask)
    ensures Inv(Created(core, ask, now, random), hash)
  {
    hide ApprovedInv;
    hide ApprovalsInv;
    hide RequestsInv;
    hide MakeId;
    FreshRequestId(core, random);
    CreateKeepsRequests(core, ask, now, random);
    ApprovalsUnchanged(core, Created(core, ask, now, random), hash);
  }

  lemma CreateKeepsRequests(core: Core, ask: Ask, now: nat, random: nat)
    requires RequestsInv(core)
    requires forall id :: id in core.requests ==> !PendingFor(core.requests[id], ask)
    ensures RequestsInv(Created(core, ask, now, random))
  {
    hide MakeId;
    hide UniquePending;
    hide PendingFor;
    var core' := Created(core, ask, now, random);
    FreshRequestId(core, random);
    var id := MakeId(REQUEST_PREFIX, core.nonce + 1, random);
    assert Numbered(id, core'.nonce);
    forall i | i in core.requests ensures Numbered(i, core'.nonce) {
      NumberedLater(i, core.nonce, core'.nonce);
    }
    hide Numbered;
    CreateKeepsUnique(core.requests, id, ask, now);
    assert StatusInv(NewRequest(id, ask, now));
    hide StatusInv;
  }

  lemma CreateKeepsUnique(requests: map<string, Request>, id: string, ask: Ask, now: nat)
    requires UniquePending(requests) && id !in requests
    requires forall i :: i in requests ==> !PendingFor(requests[i], ask)
    ensures UniquePending(requests[id := NewRequest(id, ask, now)])
  {
  }

  lemma RefuseKeepsInv(core: Core, id: string, now: nat, hash: string -> string)
    requires Inv(core, hash) && core.held.None? && id in core.requests && core.requests[id].status == Pending
    ensures Inv(Refused(core, id, now), hash)
  {
    hide Numbered;
    hide ApprovedInv;
    hide ApprovalsInv;
    ApprovalsUnchanged(core, Refused(core, id, now), hash);
  }

  lemma PublishKeepsInv(core: Core, id: string, now: nat, random: nat, random': nat, hash: string -> string)
    requires Inv(core, hash) && core.held.None? && id in core.requests && core.requests[id].status == Pending
    ensures Inv(Published(core, id, now, random, random', hash), hash)
  {
    hide MakeId;
    var a := ApprovalFor(core, core.requests[id], now, random, random');
    var core' := Published(core, id, now, random, random', hash);
    forall i | i in core.requests ensures Numbered(i, core'.nonce) {
      NumberedLater(i, core.nonce, core'.nonce);
    }
    hide Numbered;
    assert core'.approvals[..|core.approvals|] == core.approvals;
    assert forall d :: LastApproval(core'.approvals, d) == if d == a.deviceId then Some(a) else LastApproval(core.approvals, d);
    hide LastApproval;
    assert forall d :: Found(core', d) == if d == a.deviceId then Some(DeviceOf(a, hash)) else Found(core, d);
    assert Backed(core', a);
    assert forall b :: Backed(core, b) ==> Backed(core', b);
  }

  lemma StoreKeepsInv(core: Core, hash: string -> string)
    requires Inv(core, hash) && core.held.Some?
    ensures Inv(Stored(core), hash)
  {
    hide Numbered;
    var core' := Stored(core);
    assert forall d :: Found(core', d) == Found(core, d);
    assert forall a :: Backed(core, a) ==> Backed(core', a);
  }

  // ------------------------------------------------------- what is authorised

  /** The approval covers what is asked for, the token aside. */
  predicate Covers(a: Approval, ask: Ask)
  {
    a.publicKey == ask.publicKey && a.role == ask.role && ask.scopes <= a.scopes
  }

  /** What the history says the first lock region must answer. */
  function Expected(approvals: seq<Approval>, ask: Ask, hash: string -> string): Option<Decision>
  {
    match LastApproval(approvals, ask.deviceId)
    case None => None
    case Some(a) =>
      if !Covers(a, ask) then None
      else if ask.token.None? then Some(DeviceTokenRequired)
      else Some(if hash(ask.token.value) == hash(a.token) then Authorized else DeviceTokenInvalid)
  }

  /** A connection is authorised exactly when the most recent approval of the device has
      the same key and role, at least the requested scopes, and a token with the same hash;
      the other token answers are as exact, and everything else goes on to pairing. */
  lemma ClassifyExactly(core: Core, ask: Ask, hash: string -> string)
    requires ApprovedInv(core, hash)
    ensures Classify(Found(core, ask.deviceId), ask, hash) == Expected(core.approvals, ask, hash)
    ensures Classify(Found(core, ask.deviceId), ask, hash) == Some(Authorized) <==>
      (exists a :: LastApproval(core.approvals, ask.deviceId) == Some(a) && Covers(a, ask) &&
        ask.token.Some? && hash(ask.token.value) == hash(a.token))
  {
    assert Found(core, ask.deviceId) ==
      match LastApproval(core.approvals, ask.deviceId) { case Some(a) => Some(DeviceOf(a, hash)) case None => None };
    hide LastApproval;
  }

  // -------------------------------------------------------------- the machine

  /** Where an `evaluate_connect` call is. */
  datatype Connect =
    | MustPair(ask: Ask)
    | Answered(ask: Ask, answer: Result<Decision, string>)

  datatype State = State(core: Core, connects: map<nat, Connect>)

  datatype Step =
    | ReadApproved(connect: nat, ask: Ask)
    | EnterRequests(connect: nat, now: nat, random: nat, persisted: bool)
    | RejectRequest(id: string, now: nat, persisted: bool)
    | PublishApproval(id: string, now: nat, random: nat, random': nat, persisted: bool)
    | StoreApproval

  predicate Resolvable(core: Core, id: string)
  {
    core.held.None? && id in core.requests && core.requests[id].status == Pending
  }

  /** One lock region. A failed persist only moves the sequence counter. */
  ghost predicate Next(s: State, step: Step, s': State, hash: string -> string)
  {
    match step
    case ReadApproved(c, ask) =>
      && c !in s.connects && s'.core == s.core
      && var decision := Classify(Found(s.core, ask.deviceId), ask, hash);
         s'.connects == s.connects[c := if decision.Some? then Answered(ask, Ok(decision.value)) else MustPair(ask)]
    case EnterRequests(c, now, random, persisted) =>
      && s.core.held.None? && c in s.connects && s.connects[c].MustPair?
      && var ask := s.connects[c].ask;
         if exists id :: id in s.core.requests && PendingFor(s.core.requests[id], ask) then
           && s'.core == s.core
           && exists id ::
                id in s.core.requests && PendingFor(s.core.requests[id], ask) &&
                s'.connects == s.connects[c := Answered(ask, Ok(PairingRequired(s.core.requests[id], false)))]
         else if persisted then
           && s'.core == Created(s.core, ask, now, random)
           && s'.connects == s.connects[c := Answered(ask, Ok(PairingRequired(
                NewRequest(MakeId(REQUEST_PREFIX, s.core.nonce + 1, random), ask, now), true)))]
         else
           && s'.core == s.core.(nonce := s.core.nonce + 1)
           && s'.connects == s.connects[c := Answered(ask, Err("persist failed"))]
    case RejectRequest(id, now, persisted) =>
      && Resolvable(s.core, id) && s'.connects == s.connects
      && s'.core == if persisted then Refused(s.core, id, now) else s.core
    case PublishApproval(id, now, random, random', persisted) =>
      && Resolvable(s.core, id) && s'.connects == s.connects
      && s'.core == if persisted then Published(s.core, id, now, random, random', hash) else s.core.(nonce := s.core.nonce + 2)
    case StoreApproval =>
      s.core.held.Some? && s'.connects == s.connects && s'.core == Stored(s.core)
  }

  ghost predicate IsRun(states: seq<State>, steps: seq<Step>, hash: string -> string)
  {
    && |states| == |steps| + 1
    && states[0] == State(EMPTY, map[])
    && forall i :: 0 <= i < |steps| ==> Next(states[i], steps[i], states[i + 1], hash)
  }

  lemma StepInv(s: State, step: Step, s': State, hash: string -> string)
    requires Inv(s.core, hash) && Next(s, step, s', hash)
    ensures Inv(s'.core, hash)
  {
    hide Inv;
    hide MakeId;
    match step
    case ReadApproved(_, _) =>
    case EnterRequests(c, now, random, persisted) =>
      var ask := s.connects[c].ask;
      if forall id :: id in s.core.requests ==> !PendingFor(s.core.requests[id], ask) {
        CreateKeepsInv(s.core, ask, now, random, hash);
        BumpKeepsInv(s.core, 1, hash);
      }
    case RejectRequest(id, now, persisted) => RefuseKeepsInv(s.core, id, now, hash);
    case PublishApproval(id, now, random, random', persisted) =>
      PublishKeepsInv(s.core, id, now, random, random', hash);
      BumpKeepsInv(s.core, 2, hash);
    case StoreApproval => StoreKeepsInv(s.core, hash);
  }

  lemma RunStep(states: seq<State>, steps: seq<Step>, hash: string -> string, k: nat)
    requires IsRun(states, steps, hash) && k < |steps|
    ensures k + 1 < |states| && Next(states[k], steps[k], states[k + 1], hash)
  {
    hide Next;
  }

  lemma {:induction false} RunInv(states: seq<State>, steps: seq<Step>, hash: string -> string, k: nat)
    requires IsRun(states, steps, hash) && k < |states|
    ensures Inv(states[k].core, hash)
    decreases k
  {
    if k > 0 {
      hide Inv;
      hide Next;
      RunInv(states, steps, hash, k - 1);
      StepInv(states[k - 1], steps[k - 1], states[k], hash);
    }
  }

  /** In every interleaving: at most one pending request per device, key, role and scopes,
      and a token exactly on the approved ones. */
  lemma PendingRequestsAreUnique(states: seq<State>, steps: seq<Step>, hash: string -> string, k: nat)
    requires IsRun(states, steps, hash) && k < |states|
    ensures var requests := states[k].core.requests;
      && UniquePending(requests)
      && (forall i :: i in requests ==> requests[i].id == i)
      && (forall i :: i in requests ==> (requests[i].status == Approved <==> requests[i].deviceToken.Some?))
      && (forall i :: i in requests ==> (requests[i].status == Approved <==> requests[i].tokenId.Some?))
      && (forall i :: i in requests ==> (requests[i].status == Pending <==> requests[i].resolvedAt.None?))
  {
    RunInv(states, steps, hash, k);
    hide Numbered;
    hide ApprovedInv;
    hide ApprovalsInv;
  }

  /** In every interleaving the first lock region answers by the most recent approval. */
  lemma ReadAnswersByLastApproval(states: seq<State>, steps: seq<Step>, hash: string -> string, k: nat)
    requires IsRun(states, steps, hash) && k < |steps| && steps[k].ReadApproved?
    ensures var c, ask := steps[k].connect, steps[k].ask;
      var expected := Expected(states[k].core.approvals, ask, hash);
      && c in states[k + 1].connects
      && states[k + 1].connects[c] == if expected.Some? then Answered(ask, Ok(expected.value)) else MustPair(ask)
  {
    RunInv(states, steps, hash, k);
    assert Next(states[k], steps[k], states[k + 1], hash);
    ClassifyExactly(states[k].core, steps[k].ask, hash);
  }

  lemma ResolvedStep(s: State, step: Step, s': State, hash: string -> string, id: string)
    requires Inv(s.core, hash) && Next(s, step, s', hash)
    requires id in s.core.requests && s.core.requests[id].status != Pending
    ensures id in s'.core.requests && s'.core.requests[id] == s.core.requests[id]
  {
    if step.EnterRequests? {
      FreshRequestId(s.core, step.random);
    }
    hide MakeId;
    hide Numbered;
    hide ApprovedInv;
    hide ApprovalsInv;
  }

  /** A resolved request never changes again. */
  lemma {:induction false} ResolvedRequestsAreFinal(states: seq<State>, steps: seq<Step>, hash: string -> string, k: nat, l: nat, id: string)
    requires IsRun(states, steps, hash) && k <= l < |states|
    requires id in states[k].core.requests && states[k].core.requests[id].status != Pending
    ensures id in states[l].core.requests && states[l].core.requests[id] == states[k].core.requests[id]
    decreases l
  {
    if k < l {
      hide Inv;
      hide Next;
      ResolvedRequestsAreFinal(states, steps, hash, k, l - 1, id);
      RunInv(states, steps, hash, l - 1);
      RunStep(states, steps, hash, l - 1);
      hide IsRun;
      ResolvedStep(states[l - 1], steps[l - 1], states[l], hash, id);
    }
  }

  /** A call whose persist fails leaves requests, devices and approvals as they were. */
  lemma FailedPersistChangesNothing(s: State, step: Step, s': State, hash: string -> string)
    requires Next(s, step, s', hash)
    requires (step.EnterRequests? || step.RejectRequest? || step.PublishApproval?) && !step.persisted
    ensures s'.core.requests == s.core.requests && s'.core.approved == s.core.approved
    ensures s'.core.approvals == s.core.approvals && s'.core.held == s.core.held
  {
  }

  // ------------------------------------------------------ between the two lock regions

  /** The step publishes an approval of the device. */
  ghost predicate PublishesFor(s: State, step: Step, deviceId: string)
  {
    step.PublishApproval? && step.persisted && step.id in s.core.requests && s.core.requests[step.id].deviceId == deviceId
  }

  /** The most recent approval of the device covers the ask. */
  ghost predicate Covered(s: State, ask: Ask)
  {
    LastApproval(s.core.approvals, ask.deviceId).Some? && Covers(LastApproval(s.core.approvals, ask.deviceId).value, ask)
  }

  lemma OtherStepsKeepApproval(s: State, step: Step, s': State, hash: string -> string, deviceId: string)
    requires Next(s, step, s', hash) && !PublishesFor(s, step, deviceId)
    ensures LastApproval(s'.core.approvals, deviceId) == LastApproval(s.core.approvals, deviceId)
  {
    hide MakeId;
    if step.PublishApproval? && step.persisted {
      assert s'.core.approvals[..|s.core.approvals|] == s.core.approvals;
    }
  }

  /** The step approves a request of the ask's device with the ask's key and role and at least its scopes. */
  ghost predicate Approves(s: State, step: Step, ask: Ask)
  {
    && PublishesFor(s, step, ask.deviceId)
    && var request := s.core.requests[step.id];
       request.publicKey == ask.publicKey && request.role == ask.role && ask.scopes <= request.scopes
  }

  lemma ApprovesExactly(s: State, step: Step, s': State, hash: string -> string, ask: Ask)
    requires Next(s, step, s', hash) && PublishesFor(s, step, ask.deviceId)
    ensures Covered(s', ask) <==> Approves(s, step, ask)
  {
    hide MakeId;
  }

  /** Step `m` approves such a request, and no later step before `j` approves one of that device. */
  ghost predicate LastCovering(states: seq<State>, steps: seq<Step>, ask: Ask, m: nat, j: nat)
    requires m < j <= |steps| < |states|
  {
    && Approves(states[m], steps[m], ask)
    && forall l :: m < l < j ==> !PublishesFor(states[l], steps[l], ask.deviceId)
  }

  ghost predicate CoveredBetween(states: seq<State>, steps: seq<Step>, ask: Ask, i: nat, j: nat)
    requires j <= |steps| < |states|
  {
    exists m :: i <= m < j && LastCovering(states, steps, ask, m, j)
  }

  lemma {:induction false} CoveredExactly(states: seq<State>, steps: seq<Step>, hash: string -> string, ask: Ask, i: nat, j: nat)
    requires IsRun(states, steps, hash) && i <= j <= |steps| && !Covered(states[i], ask)
    ensures Covered(states[j], ask) <==> CoveredBetween(states, steps, ask, i, j)
    decreases j
  {
    if i < j {
      hide Next;
      hide Covered;
      hide PublishesFor;
      ApprovesPublishes(states[j - 1], steps[j - 1], ask);
      hide Approves;
      CoveredExactly(states, steps, hash, ask, i, j - 1);
      RunStep(states, steps, hash, j - 1);
      hide IsRun;
      if PublishesFor(states[j - 1], steps[j - 1], ask.deviceId) {
        ApprovesExactly(states[j - 1], steps[j - 1], states[j], hash, ask);
        if Covered(states[j], ask) {
          assert LastCovering(states, steps, ask, j - 1, j);
        }
      } else {
        CoveredKept(states[j - 1], steps[j - 1], states[j], hash, ask);
        CoveringKept(states, steps, ask, i, j);
      }
    }
  }

  lemma ApprovesPublishes(s: State, step: Step, ask: Ask)
    ensures Approves(s, step, ask) ==> PublishesFor(s, step, ask.deviceId)
  {
  }

  lemma CoveredKept(s: State, step: Step, s': State, hash: string -> string, ask: Ask)
    requires Next(s, step, s', hash) && !PublishesFor(s, step, ask.deviceId)
    ensures Covered(s', ask) <==> Covered(s, ask)
  {
    OtherStepsKeepApproval(s, step, s', hash, ask.deviceId);
    hide Next;
    hide LastApproval;
  }

  lemma CoveringKept(states: seq<State>, steps: seq<Step>, ask: Ask, i: nat, j: nat)
    requires i < j <= |steps| < |states| && !PublishesFor(states[j - 1], steps[j - 1], ask.deviceId)
    ensures CoveredBetween(states, steps, ask, i, j) <==> CoveredBetween(states, steps, ask, i, j - 1)
  {
    hide PublishesFor;
    ApprovesPublishes(states[j - 1], steps[j - 1], ask);
    hide Approves;
    if CoveredBetween(states, steps, ask, i, j - 1) {
      var m :| i <= m < j - 1 && LastCovering(states, steps, ask, m, j - 1);
      assert LastCovering(states, steps, ask, m, j);
    }
    if CoveredBetween(states, steps, ask, i, j) {
      var m :| i <= m < j && LastCovering(states, steps, ask, m, j);
      assert LastCovering(states, steps, ask, m, j - 1);
    }
  }

  ghost predicate HasPending(core: Core, ask: Ask)
  {
    exists id :: id in core.requests && PendingFor(core.requests[id], ask)
  }

  lemma {:induction false} ConnectKeepsAsk(states: seq<State>, steps: seq<Step>, hash: string -> string, i: nat, j: nat)
    requires IsRun(states, steps, hash) && i < j <= |steps| && steps[i].ReadApproved?
    ensures steps[i].connect in states[j].connects && states[j].connects[steps[i].connect].ask == steps[i].ask
    decreases j
  {
    RunStep(states, steps, hash, j - 1);
    if i + 1 < j {
      ConnectKeepsAsk(states, steps, hash, i, j - 1);
    }
  }

  /** A pending request is stored for this device, key, role and scopes. */
  ghost predicate PendingStored(requests: map<string, Request>, deviceId: string, publicKey: string, role: string, scopes: set<string>)
  {
    exists id :: id in requests &&
      requests[id].status == Pending && requests[id].deviceId == deviceId && requests[id].publicKey == publicKey &&
      requests[id].role == role && requests[id].scopes == scopes
  }

  /** `r` is stored and pending, for this device, key, role and scopes. */
  predicate StoredFor(requests: map<string, Request>, r: Request, deviceId: string, publicKey: string, role: string, scopes: set<string>)
  {
    && r.id in requests && requests[r.id] == r && r.status == Pending
    && r.deviceId == deviceId && r.publicKey == publicKey && r.role == role && r.scopes == scopes
  }

  /** What the region under the request lock answers: a request that is stored
      and pending for exactly what was asked, new if and only if none was there. */
  ghost predicate Pairs(before: map<string, Request>, after: map<string, Request>, ask: Ask, now: nat, persisted: bool,
                        answer: Result<Decision, string>)
  {
    if PendingStored(before, ask.deviceId, ask.publicKey, ask.role, ask.scopes) then
      && answer.Ok? && answer.value.PairingRequired? && !answer.value.created && after == before
      && StoredFor(before, answer.value.request, ask.deviceId, ask.publicKey, ask.role, ask.scopes)
    else if persisted then
      && answer.Ok? && answer.value.PairingRequired? && answer.value.created
      && var r := answer.value.request;
         && StoredFor(after, r, ask.deviceId, ask.publicKey, ask.role, ask.scopes)
         && r.clientId == ask.clientId && r.requestedAt == now
         && r.resolvedAt.None? && r.tokenId.None? && r.deviceToken.None?
         && r.id !in before && after == before[r.id := r]
    else
      answer.Err? && after == before
  }

  lemma PendingForSpelledOut(requests: map<string, Request>, ask: Ask)
    ensures (exists id :: id in requests && PendingFor(requests[id], ask)) <==>
            PendingStored(requests, ask.deviceId, ask.publicKey, ask.role, ask.scopes)
  {
    if exists id :: id in requests && PendingFor(requests[id], ask) {
      var id :| id in requests && PendingFor(requests[id], ask);
      assert requests[id].status == Pending;
    }
    if PendingStored(requests, ask.deviceId, ask.publicKey, ask.role, ask.scopes) {
      var id :| id in requests &&
        requests[id].status == Pending && requests[id].deviceId == ask.deviceId && requests[id].publicKey == ask.publicKey &&
        requests[id].role == ask.role && requests[id].scopes == ask.scopes;
      assert PendingFor(requests[id], ask);
    }
  }

  lemma EnterPairs(s: State, step: Step, s': State, hash: string -> string)
    requires RequestsInv(s.core) && Next(s, step, s', hash) && step.EnterRequests?
    ensures step.connect in s'.connects && s'.connects[step.connect].Answered?
    ensures Pairs(s.core.requests, s'.core.requests, s.connects[step.connect].ask, step.now, step.persisted,
                  s'.connects[step.connect].answer)
  {
    PendingForSpelledOut(s.core.requests, s.connects[step.connect].ask);
    FreshRequestId(s.core, step.random);
    hide MakeId;
    hide Numbered;
    hide UniquePending;
    hide PendingStored;
  }

  /** In every interleaving, a call that reads the devices with some ask and later
      has to pair is answered with a stored pending request for the device, key,
      role and scopes of that ask: a new one if and only if none was there. */
  lemma PairingAnswersTheAsk(states: seq<State>, steps: seq<Step>, hash: string -> string, i: nat, j: nat)
    requires IsRun(states, steps, hash) && i < j < |steps|
    requires steps[i].ReadApproved? && steps[j].EnterRequests? && steps[j].connect == steps[i].connect
    ensures var c := steps[j].connect;
      && c in states[j + 1].connects && states[j + 1].connects[c].Answered? && states[j + 1].connects[c].ask == steps[i].ask
      && Pairs(states[j].core.requests, states[j + 1].core.requests, steps[i].ask, steps[j].now, steps[j].persisted,
               states[j + 1].connects[c].answer)
  {
    RunStep(states, steps, hash, j);
    RunInv(states, steps, hash, j);
    ConnectKeepsAsk(states, steps, hash, i, j);
    ConnectKeepsAsk(states, steps, hash, i, j + 1);
    hide IsRun;
    hide Next;
    hide RequestsInv;
    hide Pairs;
    EnterPairs(states[j], steps[j], states[j + 1], hash);
  }

  /** The call has been answered with a new pending request. */
  ghost predicate MadeRequest(s: State, c: nat)
  {
    && c in s.connects && s.connects[c].Answered?
    && s.connects[c].answer.Ok? && s.connects[c].answer.value.PairingRequired? && s.connects[c].answer.value.created
  }

  lemma MadeExactly(s: State, step: Step, s': State, hash: string -> string)
    requires Next(s, step, s', hash) && step.EnterRequests?
    ensures MadeRequest(s', step.connect) <==> !HasPending(s.core, s.connects[step.connect].ask) && step.persisted
  {
    hide MakeId;
  }

  /** A call makes a new pairing request for an ask that the most recent approval already
      covers if and only if such an approval was published after the call had read the
      devices, no request for the ask is pending, and the new one is persisted. */
  lemma StaleRequestExactly(states: seq<State>, steps: seq<Step>, hash: string -> string, i: nat, j: nat)
    requires IsRun(states, steps, hash) && i < j < |steps|
    requires steps[i].ReadApproved? && steps[j].EnterRequests? && steps[j].connect == steps[i].connect
    ensures var ask := steps[i].ask;
      MadeRequest(states[j + 1], steps[j].connect) && Covered(states[j], ask) <==>
      CoveredBetween(states, steps, ask, i, j) && !HasPending(states[j].core, ask) && steps[j].persisted
  {
    hide CoveredBetween;
    hide Covered;
    hide MadeRequest;
    hide HasPending;
    RunStep(states, steps, hash, j);
    ConnectKeepsAsk(states, steps, hash, i, j);
    MadeExactly(states[j], steps[j], states[j + 1], hash);
    MustPairBefore(states, steps, hash, i, j);
    hide Next;
    ReadWasUncovered(states, steps, hash, i);
    CoveredExactly(states, steps, hash, steps[i].ask, i, j);
  }

  /** A call that still has to pair had to pair from the moment it read the devices. */
  lemma {:induction false} MustPairBefore(states: seq<State>, steps: seq<Step>, hash: string -> string, i: nat, j: nat)
    requires IsRun(states, steps, hash) && i < j <= |steps| && steps[i].ReadApproved?
    requires steps[i].connect in states[j].connects && states[j].connects[steps[i].connect].MustPair?
    ensures steps[i].connect in states[i + 1].connects && states[i + 1].connects[steps[i].connect].MustPair?
    decreases j
  {
    if i + 1 < j {
      ConnectKeepsAsk(states, steps, hash, i, j - 1);
      RunStep(states, steps, hash, j - 1);
      MustPairBefore(states, steps, hash, i, j - 1);
    }
  }

  lemma ReadWasUncovered(states: seq<State>, steps: seq<Step>, hash: string -> string, i: nat)
    requires IsRun(states, steps, hash) && i < |steps| && steps[i].ReadApproved?
    requires steps[i].connect in states[i + 1].connects && states[i + 1].connects[steps[i].connect].MustPair?
    ensures !Covered(states[i], steps[i].ask)
  {
    ReadAnswersByLastApproval(states, steps, hash, i);
  }

  /** One call pairs, a second one reads the devices, the request is approved, and only then
      does the second call enter the requests. */
  const STALE_STEPS: seq<Step> := [
    ReadApproved(0, AN_ASK), EnterRequests(0, 0, 0, true), ReadApproved(1, AN_ASK),
    PublishApproval(MakeId(REQUEST_PREFIX, 1, 0), 0, 0, 0, true), StoreApproval, EnterRequests(1, 0, 0, true)]

  const AN_ASK := Ask("device", "client", "key", "operator", {}, None)

  lemma FirstCallPairs(hash: string -> string) returns (states: seq<State>)
    ensures |states| == 4 && states[0] == State(EMPTY, map[])
    ensures forall i :: 0 <= i < 3 ==> Next(states[i], STALE_STEPS[i], states[i + 1], hash)
    ensures states[3].core == Created(EMPTY, AN_ASK, 0, 0)
    ensures 1 in states[3].connects && states[3].connects[1] == MustPair(AN_ASK)
  {
    hide MakeId;
    var s0 := State(EMPTY, map[]);
    var s1 := s0.(connects := map[0 := MustPair(AN_ASK)]);
    var core := Created(EMPTY, AN_ASK, 0, 0);
    var made := NewRequest(MakeId(REQUEST_PREFIX, 1, 0), AN_ASK, 0);
    var s2 := State(core, s1.connects[0 := Answered(AN_ASK, Ok(PairingRequired(made, true)))]);
    var s3 := s2.(connects := s2.connects[1 := MustPair(AN_ASK)]);
    states := [s0, s1, s2, s3];
    assert Next(s0, STALE_STEPS[0], s1, hash);
    assert Next(s1, STALE_STEPS[1], s2, hash);
    assert Next(s2, STALE_STEPS[2], s3, hash);
  }

  /** The race happens: a new pending request is made for an ask that is already approved. */
  lemma StaleReadHappens(hash: string -> string) returns (states: seq<State>)
    ensures IsRun(states, STALE_STEPS, hash)
    ensures Covered(states[5], AN_ASK) && 1 in states[5].connects && states[5].connects[1] == MustPair(AN_ASK)
    ensures HasPending(states[6].core, AN_ASK)
  {
    states := FirstCallPairs(hash);
    var first := MakeId(REQUEST_PREFIX, 1, 0);
    hide MakeId;
    var s3 := states[3];
    var s4 := s3.(core := Published(s3.core, first, 0, 0, 0, hash));
    var s5 := s4.(core := Stored(s4.core));
    var id := MakeId(REQUEST_PREFIX, s5.core.nonce + 1, 0);
    var s6 := State(Created(s5.core, AN_ASK, 0, 0),
                    s5.connects[1 := Answered(AN_ASK, Ok(PairingRequired(NewRequest(id, AN_ASK, 0), true)))]);
    assert Next(s3, STALE_STEPS[3], s4, hash);
    assert Next(s4, STALE_STEPS[4], s5, hash);
    assert Next(s5, STALE_STEPS[5], s6, hash);
    states := states + [s4, s5, s6];
    assert id in s6.core.requests && PendingFor(s6.core.requests[id], AN_ASK);
  }
}

/** The registry as an object, for calls that do not overlap. */
module PairingRegistry {
  import opened Text
  import opened Identifiers
  import opened Pairing

  function NormalizedScopes(scopes: set<string>): set<string>
  {
    set s | s in scopes && Trim(s) != "" :: Trim(s)
  }

  function NormalizedToken(token: Option<string>): Option<string>
  {
    if token.Some? && Trim(token.value) != "" then Some(Trim(token.value)) else None
  }

  function NormalizedAsk(raw: Ask): Ask
  {
    Ask(Trim(raw.deviceId), Trim(raw.clientId), Trim(raw.publicKey), Trim(raw.role),
        NormalizedScopes(raw.scopes), NormalizedToken(raw.token))
  }

  /** Normalising trims every field, drops blank scopes and takes a blank token as none. */
  lemma NormalizedAskExactly(raw: Ask)
    ensures var ask := NormalizedAsk(raw);
      && ask.deviceId == Trim(raw.deviceId) && ask.clientId == Trim(raw.clientId)
      && ask.publicKey == Trim(raw.publicKey) && ask.role == Trim(raw.role)
      && "" !in ask.scopes
      && (forall s :: s in ask.scopes ==> exists t :: t in raw.scopes && s == Trim(t))
      && (forall t :: t in raw.scopes ==> Trim(t) == "" || Trim(t) in ask.scopes)
      && (ask.token.Some? <==> raw.token.Some? && !Blank(raw.token.value))
      && (ask.token.Some? ==> ask.token.value == Trim(raw.token.value))
  {
    if raw.token.Some? {
      BlankTrim(raw.token.value);
    }
    hide Trim;
    hide Blank;
  }

  predicate Complete(ask: Ask)
  {
    ask.deviceId != "" && ask.clientId != "" && ask.publicKey != "" && ask.role != ""
  }

  /** `after` is `before` approved at `now` with this token. */
  predicate ApprovedAt(before: Request, after: Request, now: nat, tokenId: string, token: string)
  {
    && after.status == Approved && after.resolvedAt == Some(now)
    && after.tokenId == Some(tokenId) && after.deviceToken == Some(token)
    && after.id == before.id && after.requestedAt == before.requestedAt && after.clientId == before.clientId
    && SameIdentity(before, after)
  }

  /** Nothing is missing exactly when no required field is blank. */
  lemma CompleteExactly(raw: Ask)
    ensures Complete(NormalizedAsk(raw)) <==>
      !Blank(raw.deviceId) && !Blank(raw.clientId) && !Blank(raw.publicKey) && !Blank(raw.role)
    ensures NormalizedAsk(raw).deviceId == "" <==> Blank(raw.deviceId)
    ensures NormalizedAsk(raw).clientId == "" <==> Blank(raw.clientId)
    ensures NormalizedAsk(raw).publicKey == "" <==> Blank(raw.publicKey)
    ensures NormalizedAsk(raw).role == "" <==> Blank(raw.role)
  {
    BlankTrim(raw.deviceId);
    BlankTrim(raw.clientId);
    BlankTrim(raw.publicKey);
    BlankTrim(raw.role);
    hide Blank;
    hide Trim;
  }

  class Registry {
    var nonce: nat
    var requests: map<string, Request>
    var approved: map<string, ApprovedDevice>
    ghost var approvals: seq<Approval>
    const hash: string -> string

    ghost function Core(): Core
      reads this
    {
      Pairing.Core(nonce, requests, approved, approvals, None)
    }

    ghost predicate Valid()
      reads this
    {
      Inv(Core(), hash)
    }

    constructor (hash: string -> string)
      ensures Core() == EMPTY && Valid() && this.hash == hash
    {
      nonce, requests, approved, approvals := 0, map[], map[], [];
      this.hash := hash;
    }

    /** A missing field is an error. Otherwise the most recent approval decides, and where it
        does not, the one pending request for this ask is returned, or a new one is made. */
    method EvaluateConnect(raw: Ask, now: nat, random: nat, persisted: bool) returns (r: Result<Decision, string>)
      requires Valid()
      modifies this
      ensures Valid()
      ensures Blank(raw.deviceId) || Blank(raw.clientId) || Blank(raw.publicKey) || Blank(raw.role) ==>
        r.Err? && Core() == old(Core())
      ensures !Complete(NormalizedAsk(raw)) ==> r.Err? && Core() == old(Core())
      ensures Blank(raw.deviceId) ==> r == Err("device_id is required")
      ensures !Blank(raw.deviceId) && Blank(raw.clientId) ==> r == Err("client_id is required")
      ensures !Blank(raw.deviceId) && !Blank(raw.clientId) && Blank(raw.publicKey) ==> r == Err("public_key is required")
      ensures !Blank(raw.deviceId) && !Blank(raw.clientId) && !Blank(raw.publicKey) && Blank(raw.role) ==>
        r == Err("role is required")
      ensures Complete(NormalizedAsk(raw)) ==>
        var ask := NormalizedAsk(raw);
        var expected := Expected(old(approvals), ask, hash);
        if expected.Some? then r == Ok(expected.value) && Core() == old(Core())
        else
          && Connected(old(Core()), ask, now, random, persisted, Core(), r)
          && Pairs(old(requests), requests, ask, now, persisted, r)
    {
      hide Pairs;
      hide Inv;
      hide Expected;
      hide NormalizedAsk;
      hide Classify;
      hide Connected;
      var ask := NormalizedAsk(raw);
      CompleteExactly(raw);
      hide Blank;
      if ask.deviceId == "" {
        return Err("device_id is required");
      }
      if ask.clientId == "" {
        return Err("client_id is required");
      }
      if ask.publicKey == "" {
        return Err("public_key is required");
      }
      if ask.role == "" {
        return Err("role is required");
      }
      ClassifyByInv(Core(), ask, hash);
      var found := if ask.deviceId in approved then Some(approved[ask.deviceId]) else None;
      var decision := Classify(found, ask, hash);
      if decision.Some? {
        return Ok(decision.value);
      }
      r := FindOrCreateRequest(ask, now, random, persisted);
    }

    /** The region under the request lock. */
    method FindOrCreateRequest(ask: Ask, now: nat, random: nat, persisted: bool) returns (r: Result<Decision, string>)
      requires Valid()
      modifies this
      ensures Valid() && Connected(old(Core()), ask, now, random, persisted, Core(), r)
      ensures Pairs(old(requests), requests, ask, now, persisted, r)
      ensures r.Ok? && r.value.PairingRequired? && r.value.created ==>
        nonce == old(nonce) + 1 && r.value.request.id == MakeId("pair-", nonce, random)
    {
      hide Inv;
      hide MakeId;
      hide Pairs;
      ConnectedPairs(Core(), ask, now, random, persisted, hash);
      var existing := FindPending(ask);
      if existing.Some? {
        return Ok(PairingRequired(requests[existing.value], false));
      }
      CreateKeepsInv(Core(), ask, now, random, hash);
      BumpKeepsInv(Core(), 1, hash);
      nonce := nonce + 1;
      var id := MakeId(REQUEST_PREFIX, nonce, random);
      var request := NewRequest(id, ask, now);
      if !persisted {
        return Err("persist failed");
      }
      requests := requests[id := request];
      r := Ok(PairingRequired(request, true));
    }

    method FindPending(ask: Ask) returns (found: Option<string>)
      ensures found.Some? ==> found.value in requests && PendingFor(requests[found.value], ask)
      ensures found.None? ==> forall id :: id in requests ==> !PendingFor(requests[id], ask)
      ensures found.Some? <==> PendingStored(requests, ask.deviceId, ask.publicKey, ask.role, ask.scopes)
      ensures found.Some? ==>
        var r := requests[found.value];
        r.status == Pending && r.deviceId == ask.deviceId && r.publicKey == ask.publicKey && r.role == ask.role &&
        r.scopes == ask.scopes
    {
      PendingForSpelledOut(requests, ask);
      hide PendingStored;
      var ids := requests.Keys;
      while ids != {}
        invariant ids <= requests.Keys
        invariant forall id :: id in requests && id !in ids ==> !PendingFor(requests[id], ask)
        decreases ids
      {
        var id :| id in ids;
        if PendingFor(requests[id], ask) {
          return Some(id);
        }
        ids := ids - {id};
      }
      found := None;
    }

    /** Resolving a pending request approves or rejects it; resolving any other changes nothing. */
    method ResolveRequest(rawId: string, approve: bool, now: nat, random: nat, random': nat, persisted: bool)
        returns (r: Result<Option<Request>, string>)
      requires Valid()
      modifies this
      ensures Valid()
      ensures Trim(rawId) == "" ==> r == Err("pairing_request_id is required") && Core() == old(Core())
      ensures Trim(rawId) != "" && Trim(rawId) !in old(requests) ==> r == Ok(None) && Core() == old(Core())
      ensures Trim(rawId) != "" && Trim(rawId) in old(requests) && old(requests)[Trim(rawId)].status != Pending ==>
        r == Ok(Some(old(requests)[Trim(rawId)])) && Core() == old(Core())
      ensures Trim(rawId) != "" && Resolvable(old(Core()), Trim(rawId)) ==>
        Resolved(old(Core()), Trim(rawId), approve, now, random, random', persisted, Core(), r, hash)
    {
      var id := Trim(rawId);
      hide Inv;
      hide Trim;
      hide Resolved;
      if id == "" {
        return Err("pairing_request_id is required");
      }
      if id !in requests {
        return Ok(None);
      }
      if requests[id].status != Pending {
        return Ok(Some(requests[id]));
      }
      if approve {
        r := ApprovePending(id, now, random, random', persisted);
      } else {
        r := RejectPending(id, now, persisted);
      }
    }

    method ApprovePending(id: string, now: nat, random: nat, random': nat, persisted: bool)
        returns (r: Result<Option<Request>, string>)
      requires Valid() && Resolvable(Core(), id)
      modifies this
      ensures Valid() && Resolved(old(Core()), id, true, now, random, random', persisted, Core(), r, hash)
      ensures nonce == old(nonce) + 2
      ensures r.Ok? ==> r.value.Some? && ApprovedAt(old(requests)[id], r.value.value, now,
        MakeId("cpdt-", old(nonce) + 1, random), MakeId("cpd-", old(nonce) + 2, random'))
    {
      hide Inv;
      hide MakeId;
      ghost var before := Core();
      var record := requests[id];
      RequestIds(before, id, hash);
      PublishKeepsInv(before, id, now, random, random', hash);
      StoreKeepsInv(Published(before, id, now, random, random', hash), hash);
      BumpKeepsInv(before, 2, hash);
      var tokenId := MakeId(TOKEN_ID_PREFIX, nonce + 1, random);
      var deviceToken := MakeId(TOKEN_PREFIX, nonce + 2, random');
      nonce := nonce + 2;
      var device := ApprovedDevice(record.deviceId, record.publicKey, record.role, record.scopes, tokenId, hash(deviceToken), now);
      var updated := record.(status := Approved, resolvedAt := Some(now), tokenId := Some(tokenId), deviceToken := Some(deviceToken));
      if !persisted {
        return Err("persist failed");
      }
      approved := approved[updated.deviceId := device];
      approvals := approvals + [ApprovalFor(before, record, now, random, random')];
      requests := requests[id := updated];
      assert Core() == Stored(Published(before, id, now, random, random', hash));
      r := Ok(Some(updated));
    }

    method RejectPending(id: string, now: nat, persisted: bool) returns (r: Result<Option<Request>, string>)
      requires Valid() && Resolvable(Core(), id)
      modifies this
      ensures Valid() && forall random, random' :: Resolved(old(Core()), id, false, now, random, random', persisted, Core(), r, hash)
    {
      hide Inv;
      RefuseKeepsInv(Core(), id, now, hash);
      var updated := requests[id].(status := Rejected, resolvedAt := Some(now), tokenId := None, deviceToken := None);
      if !persisted {
        return Err("persist failed");
      }
      requests := requests[id := updated];
      assert Core() == Refused(old(Core()), id, now);
      r := Ok(Some(updated));
    }
  }

  lemma RequestIds(core: Core, id: string, hash: string -> string)
    requires Inv(core, hash) && id in core.requests
    ensures core.requests[id].id == id
  {
    hide Numbered;
  }

  lemma ClassifyByInv(core: Core, ask: Ask, hash: string -> string)
    requires Inv(core, hash)
    ensures Classify(Found(core, ask.deviceId), ask, hash) == Expected(core.approvals, ask, hash)
  {
    hide RequestsInv;
    ClassifyExactly(core, ask, hash);
  }

  /** The second half of a connection: a pending request found, made, or not persisted. */
  ghost predicate Connected(before: Core, ask: Ask, now: nat, random: nat, persisted: bool, after: Core, r: Result<Decision, string>)
  {
    if exists id :: id in before.requests && PendingFor(before.requests[id], ask) then
      && after == before
      && (exists id :: id in before.requests && PendingFor(before.requests[id], ask) &&
            r == Ok(PairingRequired(before.requests[id], false)))
    else if persisted then
      after == Created(before, ask, now, random) &&
      r == Ok(PairingRequired(NewRequest(MakeId(REQUEST_PREFIX, before.nonce + 1, random), ask, now), true))
    else
      after == before.(nonce := before.nonce + 1) && r.Err?
  }

  /** What was found or made, its fields spelled out. */
  lemma ConnectedPairs(core: Core, ask: Ask, now: nat, random: nat, persisted: bool, hash: string -> string)
    requires Inv(core, hash)
    ensures forall after, r :: Connected(core, ask, now, random, persisted, after, r) ==>
      Pairs(core.requests, after.requests, ask, now, persisted, r)
  {
    PendingForSpelledOut(core.requests, ask);
    FreshRequestId(core, random);
    hide MakeId;
    hide Numbered;
    hide ApprovedInv;
    hide ApprovalsInv;
    hide UniquePending;
    hide PendingStored;
  }

  /** A pending request resolved. An approval also publishes the device and returns its token. */
  ghost predicate Resolved(before: Core, id: string, approve: bool, now: nat, random: nat, random': nat, persisted: bool,
                           after: Core, r: Result<Option<Request>, string>, hash: string -> string)
    requires Resolvable(before, id)
  {
    if !persisted then
      r.Err? && after == before.(nonce := if approve then before.nonce + 2 else before.nonce)
    else if approve then
      after == Stored(Published(before, id, now, random, random', hash)) && id in after.requests && r == Ok(Some(after.requests[id]))
    else
      after == Refused(before, id, now) && r == Ok(Some(after.requests[id]))
  }

  /** The token an approval hands out is the one that authorises its device, for anything
      the approval covers, until the next approval of that device, whatever other devices
      are approved meanwhile. */
  lemma IssuedTokenAuthorizes(core: Core, ask: Ask, hash: string -> string)
    requires Inv(core, hash) && LastApproval(core.approvals, ask.deviceId).Some?
    requires var a := LastApproval(core.approvals, ask.deviceId).value; Covers(a, ask) && ask.token == Some(a.token)
    ensures Classify(Found(core, ask.deviceId), ask, hash) == Some(Authorized)
  {
    ClassifyExactly(core, ask, hash);
  }
}
