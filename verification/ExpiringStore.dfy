/** Items issued under a token until they expire, are dropped or are taken, with
    eager purging: what both the connection leases and the one-shot challenges of
    the control plane are (crates/app/src/control_plane.rs). The history of calls
    is the specification; the map is what the code keeps. */
module ExpiringStore {
  import opened Text

  datatype Entry<V> = Entry(value: V, issuedAt: nat, expiresAt: nat)

  /** A call and the clock value it read. `Take` is a lookup that removes what it finds. */
  datatype Op<V> =
    | Issue(token: string, entry: Entry<V>)
    | Look(token: string, now: nat)
    | Take(token: string, now: nat)
    | Drop(token: string)

  function Purged<V>(m: map<string, Entry<V>>, now: nat): map<string, Entry<V>>
  {
    map t | t in m && m[t].expiresAt > now :: m[t]
  }

  function Apply<V>(m: map<string, Entry<V>>, op: Op<V>): map<string, Entry<V>>
  {
    match op
    case Issue(token, entry) => m[token := entry]
    case Look(_, now) => Purged(m, now)
    case Take(token, now) => Purged(m, now) - {token}
    case Drop(token) => m - {token}
  }

  /** The map after a history of calls. */
  function Store<V>(ops: seq<Op<V>>): map<string, Entry<V>>
  {
    if ops == [] then map[] else Apply(Store(ops[..|ops| - 1]), ops[|ops| - 1])
  }

  /** What a lookup of `token` at `now` finds. */
  function Answer<V>(m: map<string, Entry<V>>, token: string, now: nat): Option<Entry<V>>
  {
    var purged := Purged(m, now);
    if token in purged then Some(purged[token]) else None
  }

  // ------------------------------------------------------------- the log's view

  /** The call ends the life of `entry` under `token` regardless of time. */
  predicate Ends<V>(op: Op<V>, token: string)
  {
    (op.Issue? || op.Drop? || op.Take?) && op.token == token
  }

  /** The call purges `entry` because its clock has passed the expiry. */
  predicate Outlives<V>(op: Op<V>, entry: Entry<V>)
  {
    (op.Look? || op.Take?) && op.now >= entry.expiresAt
  }

  /** Issued at `i` and not re-issued, dropped or taken since. */
  ghost predicate OutstandingSince<V>(ops: seq<Op<V>>, token: string, entry: Entry<V>, i: nat)
  {
    i < |ops| && ops[i] == Issue(token, entry) && forall j :: i < j < |ops| ==> !Ends(ops[j], token)
  }

  ghost predicate Outstanding<V>(ops: seq<Op<V>>, token: string, entry: Entry<V>)
  {
    exists i: nat :: OutstandingSince(ops, token, entry, i)
  }

  /** Outstanding, and no lookup since has read a clock past the expiry. */
  ghost predicate KeptSince<V>(ops: seq<Op<V>>, token: string, entry: Entry<V>, i: nat)
  {
    OutstandingSince(ops, token, entry, i) && forall j :: i < j < |ops| ==> !Outlives(ops[j], entry)
  }

  ghost predicate Kept<V>(ops: seq<Op<V>>, token: string, entry: Entry<V>)
  {
    exists i: nat :: KeptSince(ops, token, entry, i)
  }

  lemma KeptStep<V>(ops: seq<Op<V>>, token: string, entry: Entry<V>)
    requires ops != []
    ensures var last := ops[|ops| - 1];
      Kept(ops, token, entry) <==>
      (last == Issue(token, entry) ||
       (Kept(ops[..|ops| - 1], token, entry) && !Ends(last, token) && !Outlives(last, entry)))
  {
    var n := |ops| - 1;
    var before, last := ops[..n], ops[n];
    if last == Issue(token, entry) {
      assert KeptSince(ops, token, entry, n);
    }
    if Kept(before, token, entry) && !Ends(last, token) && !Outlives(last, entry) {
      var i: nat :| KeptSince(before, token, entry, i);
      assert KeptSince(ops, token, entry, i);
    }
    if Kept(ops, token, entry) {
      var i: nat :| KeptSince(ops, token, entry, i);
      if i < n {
        assert KeptSince(before, token, entry, i);
      }
    }
  }

  /** The map holds exactly what the log says is kept, for any clock. */
  lemma {:induction false} StoreExactly<V>(ops: seq<Op<V>>, token: string, entry: Entry<V>)
    ensures token in Store(ops) && Store(ops)[token] == entry <==> Kept(ops, token, entry)
  {
    if ops == [] {
      assert forall i: nat :: !KeptSince(ops, token, entry, i);
    } else {
      StoreExactly(ops[..|ops| - 1], token, entry);
      KeptStep(ops, token, entry);
    }
  }

  /** For any clock, what a lookup returns was issued, has not been dropped or taken,
      has not been outlived by any lookup since, and has not expired; and all such items are returned. */
  lemma AnswerExactly<V>(ops: seq<Op<V>>, token: string, now: nat, entry: Entry<V>)
    ensures Answer(Store(ops), token, now) == Some(entry) <==> Kept(ops, token, entry) && entry.expiresAt > now
  {
    StoreExactly(ops, token, entry);
  }

  /** For any clock, a returned item was issued, has not been dropped or taken, and has not expired. */
  lemma AnswerSound<V>(ops: seq<Op<V>>, token: string, now: nat, entry: Entry<V>)
    requires Answer(Store(ops), token, now) == Some(entry)
    ensures Outstanding(ops, token, entry) && entry.expiresAt > now
  {
    AnswerExactly(ops, token, now, entry);
    var i: nat :| KeptSince(ops, token, entry, i);
    assert OutstandingSince(ops, token, entry, i);
  }

  /** No lookup so far has read a clock beyond `now`. */
  predicate ClockNotPast<V>(ops: seq<Op<V>>, now: nat)
  {
    forall j :: 0 <= j < |ops| && (ops[j].Look? || ops[j].Take?) ==> ops[j].now <= now
  }

  /** Under a clock that does not go back, eager purging is invisible: a lookup returns
      exactly the items issued, not dropped or taken since, and not expired. */
  lemma AnswerUnderMonotoneClock<V>(ops: seq<Op<V>>, token: string, now: nat, entry: Entry<V>)
    requires ClockNotPast(ops, now)
    ensures Answer(Store(ops), token, now) == Some(entry) <==> Outstanding(ops, token, entry) && entry.expiresAt > now
  {
    AnswerExactly(ops, token, now, entry);
    if Answer(Store(ops), token, now) == Some(entry) {
      AnswerSound(ops, token, now, entry);
    }
    if Outstanding(ops, token, entry) && entry.expiresAt > now {
      var i: nat :| OutstandingSince(ops, token, entry, i);
      assert KeptSince(ops, token, entry, i);
    }
  }

  /** What was taken once is not found again unless re-issued, for any clock. */
  lemma TakenAtMostOnce<V>(ops: seq<Op<V>>, p: nat, token: string, now: nat)
    requires p < |ops| && ops[p].Take? && ops[p].token == token
    requires forall j :: p < j < |ops| ==> !(ops[j].Issue? && ops[j].token == token)
    ensures Answer(Store(ops), token, now) == None
  {
    assert Ends(ops[p], token);
    assert forall e: Entry<V>, i: nat :: !OutstandingSince(ops, token, e, i);
    if Answer(Store(ops), token, now).Some? {
      AnswerSound(ops, token, now, Answer(Store(ops), token, now).value);
    }
  }

  /** No token is issued twice. */
  ghost predicate IssuedOnce<V>(ops: seq<Op<V>>)
  {
    forall i, j :: 0 <= i < j < |ops| && ops[i].Issue? && ops[j].Issue? ==> ops[i].token != ops[j].token
  }

  /** When no token is issued twice, an item is returned by at most one `Take`, for any clock. */
  lemma ReturnedAtMostOnce<V>(ops: seq<Op<V>>, p: nat, token: string, first: nat, second: nat)
    requires IssuedOnce(ops) && p < |ops| && ops[p] == Take(token, first)
    requires Answer(Store(ops[..p]), token, first).Some?
    ensures Answer(Store(ops), token, second) == None
  {
    var entry := Answer(Store(ops[..p]), token, first).value;
    AnswerSound(ops[..p], token, first, entry);
    var i: nat :| OutstandingSince(ops[..p], token, entry, i);
    assert ops[i].Issue? && ops[i].token == token;
    TakenAtMostOnce(ops, p, token, second);
  }
}

/** Connection leases and one-shot challenges over an expiring store. */
module Leases {
  import opened Text
  import opened Identifiers
  import opened Windows
  import opened ExpiringStore

  const U64_MAX: nat := 0xffff_ffff_ffff_ffff
  const CONNECTION_TTL_MS: nat := 15 * 60 * 1000
  const CHALLENGE_TTL_MS: nat := 60 * 1000
  const LEASE_PREFIX := "cpt-"
  const CHALLENGE_PREFIX := "cpc-"

  datatype Principal = Principal(connectionId: string, clientId: string, role: string, scopes: set<string>, deviceId: Option<string>)

  datatype Lease = Lease(token: string, principal: Principal, issuedAt: nat, expiresAt: nat)

  datatype Challenge = Challenge(nonce: string, issuedAt: nat, expiresAt: nat)

  function SaturatingAdd(a: nat, b: nat): nat
  {
    if a + b > U64_MAX then U64_MAX else a + b
  }

  function ExpiryOf(now: nat, ttlMs: nat): nat
  {
    SaturatingAdd(now, if ttlMs < 1 then 1 else ttlMs)
  }

  /** Tokens are numbered, so none is ever issued twice. */
  ghost predicate TokensUpTo<V>(ops: seq<Op<V>>, prefix: string, nonce: nat)
  {
    forall i :: 0 <= i < |ops| && ops[i].Issue? ==> Numbered(ops[i].token, prefix, nonce)
  }

  ghost predicate Numbered(token: string, prefix: string, nonce: nat)
  {
    exists k: nat, random: nat :: k <= nonce && token == MakeId(prefix, k, random)
  }

  lemma FreshToken<V>(ops: seq<Op<V>>, prefix: string, nonce: nat, random: nat)
    requires TokensUpTo(ops, prefix, nonce)
    ensures forall i :: 0 <= i < |ops| && ops[i].Issue? ==> ops[i].token != MakeId(prefix, nonce + 1, random)
  {
    forall i | 0 <= i < |ops| && ops[i].Issue? ensures ops[i].token != MakeId(prefix, nonce + 1, random) {
      var k: nat, r: nat :| k <= nonce && ops[i].token == MakeId(prefix, k, r);
      if ops[i].token == MakeId(prefix, nonce + 1, random) {
        IdDistinct(prefix, k, r, nonce + 1, random);
      }
    }
  }

  lemma TokensExtended<V>(ops: seq<Op<V>>, prefix: string, nonce: nat, op: Op<V>, nonce': nat)
    requires TokensUpTo(ops, prefix, nonce) && nonce <= nonce'
    requires op.Issue? ==> Numbered(op.token, prefix, nonce')
    ensures TokensUpTo(ops + [op], prefix, nonce')
  {
    hide MakeId;
    forall i | 0 <= i < |ops| && ops[i].Issue? ensures Numbered(ops[i].token, prefix, nonce') {
      var k: nat, r: nat :| k <= nonce && ops[i].token == MakeId(prefix, k, r);
    }
  }

  lemma StoreExtended<V>(ops: seq<Op<V>>, op: Op<V>)
    ensures Store(ops + [op]) == Apply(Store(ops), op)
  {
    assert (ops + [op])[..|ops|] == ops;
  }

  /** The log goes on with one more call, and nothing is issued twice. */
  lemma LogExtended<V>(ops: seq<Op<V>>, prefix: string, nonce: nat, op: Op<V>, nonce': nat)
    requires TokensUpTo(ops, prefix, nonce) && IssuedOnce(ops) && nonce <= nonce'
    requires op.Issue? ==> Numbered(op.token, prefix, nonce')
    requires op.Issue? ==> forall i :: 0 <= i < |ops| && ops[i].Issue? ==> ops[i].token != op.token
    ensures TokensUpTo(ops + [op], prefix, nonce') && IssuedOnce(ops + [op])
    ensures Store(ops + [op]) == Apply(Store(ops), op)
  {
    TokensExtended(ops, prefix, nonce, op, nonce');
    StoreExtended(ops, op);
    hide Store;
    hide TokensUpTo;
    hide Numbered;
  }

  /** What a lookup answers, in the terms of the log. */
  lemma LookupMeaning<V>(ops: seq<Op<V>>, token: string, now: nat)
    ensures Answer(Store(ops), token, now).Some? ==>
      var e := Answer(Store(ops), token, now).value; Outstanding(ops, token, e) && e.expiresAt > now
    ensures ClockNotPast(ops, now) ==>
      forall e :: Outstanding(ops, token, e) && e.expiresAt > now ==> Answer(Store(ops), token, now) == Some(e)
  {
    hide Store;
    hide Answer;
    hide Outstanding;
    hide ClockNotPast;
    if Answer(Store(ops), token, now).Some? {
      AnswerSound(ops, token, now, Answer(Store(ops), token, now).value);
    }
    if ClockNotPast(ops, now) {
      forall e | Outstanding(ops, token, e) && e.expiresAt > now ensures Answer(Store(ops), token, now) == Some(e) {
        AnswerUnderMonotoneClock(ops, token, now, e);
      }
    }
  }

  /** A clock that steps back shows the purging: a lease that a call found expired is gone,
      although it is outstanding and, by the clock of the next call, has not expired. */
  lemma SteppedBackClockLosesLease(principal: Principal, random: nat)
    ensures var token := MakeId(LEASE_PREFIX, 1, random);
      var entry := Entry(principal, 0, ExpiryOf(0, CONNECTION_TTL_MS));
      var ops := [Op.Issue(token, entry), Look(token, CONNECTION_TTL_MS)];
      Outstanding(ops, token, entry) && entry.expiresAt > 0 && Answer(Store(ops), token, 0) == None
  {
    var token := MakeId(LEASE_PREFIX, 1, random);
    var entry := Entry(principal, 0, ExpiryOf(0, CONNECTION_TTL_MS));
    var ops := [Op.Issue(token, entry), Look(token, CONNECTION_TTL_MS)];
    hide MakeId;
    assert OutstandingSince(ops, token, entry, 0);
    StoreExtended([], ops[0]);
    StoreExtended([ops[0]], ops[1]);
    assert ops == [ops[0]] + [ops[1]] && [] + [ops[0]] == [ops[0]];
    assert Store([ops[0]]) == map[token := entry];
  }

  class ConnectionRegistry {
    var nonce: nat
    var connections: map<string, Entry<Principal>>
    ghost var log: seq<Op<Principal>>

    ghost predicate Valid()
      reads this
    {
      connections == Store(log) && TokensUpTo(log, LEASE_PREFIX, nonce) && IssuedOnce(log)
    }

    constructor ()
      ensures Valid() && log == []
    {
      nonce, connections, log := 0, map[], [];
    }

    method Issue(principal: Principal, now: nat, random: nat) returns (lease: Lease)
      requires Valid()
      modifies this
      ensures Valid() && log == old(log) + [Op.Issue(lease.token, Entry(lease.principal, lease.issuedAt, lease.expiresAt))]
      ensures lease.principal == principal && lease.issuedAt == now
      ensures lease.expiresAt == Min(now + 900_000, 18_446_744_073_709_551_615)
      ensures forall i :: 0 <= i < |old(log)| && old(log)[i].Issue? ==> old(log)[i].token != lease.token
    {
      lease := IssueWithTtlMs(principal, CONNECTION_TTL_MS, now, random);
    }

    method IssueWithTtlMs(principal: Principal, ttlMs: nat, now: nat, random: nat) returns (lease: Lease)
      requires Valid()
      modifies this
      ensures Valid() && log == old(log) + [Op.Issue(lease.token, Entry(lease.principal, lease.issuedAt, lease.expiresAt))]
      ensures lease.principal == principal && lease.issuedAt == now
      ensures lease.expiresAt == Min(now + Max(1, ttlMs), 18_446_744_073_709_551_615)
      ensures forall i :: 0 <= i < |old(log)| && old(log)[i].Issue? ==> old(log)[i].token != lease.token
      ensures Trim(lease.token) == lease.token != ""
      ensures nonce == old(nonce) + 1 && lease.token == MakeId("cpt-", nonce, random)
    {
      FreshToken(log, LEASE_PREFIX, nonce, random);
      IdTrimmed(LEASE_PREFIX, nonce + 1, random);
      nonce := nonce + 1;
      var token := MakeId(LEASE_PREFIX, nonce, random);
      hide MakeId;
      var entry := Entry(principal, now, ExpiryOf(now, ttlMs));
      connections := connections[token := entry];
      lease := Lease(token, principal, now, entry.expiresAt);
      assert Numbered(token, LEASE_PREFIX, nonce);
      hide Numbered;
      hide TokensUpTo;
      hide IssuedOnce;
      hide Store;
      LogExtended(log, LEASE_PREFIX, nonce - 1, Op.Issue(token, entry), nonce);
      log := log + [Op.Issue(token, entry)];
    }

    /** Any returned lease was issued, is not revoked and not expired; under a clock that
        has not gone back every such lease is returned. A blank token finds nothing and purges nothing. */
    method Resolve(token: string, now: nat) returns (lease: Option<Lease>)
      requires Valid()
      modifies this
      ensures Valid() && log == old(log) + (if Trim(token) == "" then [] else [Look(Trim(token), now)])
      ensures Trim(token) == "" ==> lease == None
      ensures lease.Some? ==>
        var l := lease.value;
        l.token == Trim(token) && l.expiresAt > now && Outstanding(old(log), l.token, Entry(l.principal, l.issuedAt, l.expiresAt))
      ensures Trim(token) != "" && ClockNotPast(old(log), now) ==>
        forall e :: Outstanding(old(log), Trim(token), e) && e.expiresAt > now ==>
          lease == Some(Lease(Trim(token), e.value, e.issuedAt, e.expiresAt))
    {
      var trimmed := Trim(token);
      if trimmed == "" {
        return None;
      }
      hide Store;
      hide TokensUpTo;
      hide IssuedOnce;
      hide Outstanding;
      hide ClockNotPast;
      hide Trim;
      LookupMeaning(log, trimmed, now);
      connections := Purged(connections, now);
      if trimmed in connections {
        var record := connections[trimmed];
        lease := Some(Lease(trimmed, record.value, record.issuedAt, record.expiresAt));
      } else {
        lease := None;
      }
      LogExtended(log, LEASE_PREFIX, nonce, Look(trimmed, now), nonce);
      log := log + [Look(trimmed, now)];
    }

    /** Reports whether the token was held; afterwards it resolves to nothing. */
    method Revoke(token: string) returns (held: bool)
      requires Valid()
      modifies this
      ensures Valid() && log == old(log) + (if Trim(token) == "" then [] else [Drop(Trim(token))])
      ensures held <==> Trim(token) != "" && Trim(token) in old(connections)
      ensures Trim(token) != "" ==> forall e :: !Outstanding(log, Trim(token), e)
    {
      var trimmed := Trim(token);
      if trimmed == "" {
        return false;
      }
      held := trimmed in connections;
      connections := connections - {trimmed};
      TokensExtended(log, LEASE_PREFIX, nonce, Drop(trimmed), nonce);
      StoreExtended(log, Drop(trimmed));
      log := log + [Drop(trimmed)];
      assert Ends(log[|log| - 1], trimmed);
    }
  }

  /** Every challenge is kept under its own nonce. */
  ghost predicate SelfNamed(challenges: map<string, Entry<string>>)
  {
    forall t :: t in challenges ==> challenges[t].value == t
  }

  lemma SelfNamedKept(challenges: map<string, Entry<string>>, now: nat, token: string, entry: Entry<string>)
    requires SelfNamed(challenges)
    ensures SelfNamed(Purged(challenges, now)) && SelfNamed(Purged(challenges, now) - {token})
    ensures entry.value == token ==> SelfNamed(challenges[token := entry])
  {
  }

  class ChallengeRegistry {
    var nonce: nat
    var challenges: map<string, Entry<string>>
    ghost var log: seq<Op<string>>

    ghost predicate Valid()
      reads this
    {
      && challenges == Store(log) && TokensUpTo(log, CHALLENGE_PREFIX, nonce) && IssuedOnce(log)
      && SelfNamed(challenges)
    }

    constructor ()
      ensures Valid() && log == []
    {
      nonce, challenges, log := 0, map[], [];
    }

    method Issue(now: nat, random: nat) returns (challenge: Challenge)
      requires Valid()
      modifies this
      ensures Valid() && log == old(log) + [Op.Issue(challenge.nonce, Entry(challenge.nonce, challenge.issuedAt, challenge.expiresAt))]
      ensures challenge.issuedAt == now && challenge.expiresAt == Min(now + 60_000, 18_446_744_073_709_551_615)
      ensures nonce == old(nonce) + 1 && challenge.nonce == MakeId("cpc-", nonce, random)
      ensures forall i :: 0 <= i < |old(log)| && old(log)[i].Issue? ==> old(log)[i].token != challenge.nonce
    {
      FreshToken(log, CHALLENGE_PREFIX, nonce, random);
      nonce := nonce + 1;
      var token := MakeId(CHALLENGE_PREFIX, nonce, random);
      hide MakeId;
      challenge := Challenge(token, now, ExpiryOf(now, CHALLENGE_TTL_MS));
      var entry := Entry(token, now, challenge.expiresAt);
      SelfNamedKept(challenges, now, token, entry);
      hide SelfNamed;
      challenges := challenges[token := entry];
      assert Numbered(token, CHALLENGE_PREFIX, nonce);
      hide Numbered;
      hide TokensUpTo;
      hide IssuedOnce;
      hide Store;
      LogExtended(log, CHALLENGE_PREFIX, nonce - 1, Op.Issue(token, entry), nonce);
      log := log + [Op.Issue(token, entry)];
    }

    /** A returned challenge was issued, not consumed before and not expired; under a
        clock that has not gone back every such challenge is returned; consumed, it is gone. */
    method Consume(nonceText: string, now: nat) returns (challenge: Option<Challenge>)
      requires Valid()
      modifies this
      ensures Valid() && log == old(log) + (if Trim(nonceText) == "" then [] else [Take(Trim(nonceText), now)])
      ensures Trim(nonceText) == "" ==> challenge == None
      ensures challenge.Some? ==>
        var c := challenge.value;
        c.nonce == Trim(nonceText) && c.expiresAt > now && Outstanding(old(log), c.nonce, Entry(c.nonce, c.issuedAt, c.expiresAt))
      ensures Trim(nonceText) != "" && ClockNotPast(old(log), now) ==>
        forall e :: Outstanding(old(log), Trim(nonceText), e) && e.expiresAt > now ==>
          challenge == Some(Challenge(e.value, e.issuedAt, e.expiresAt))
      ensures challenge.Some? ==> Trim(nonceText) !in challenges
    {
      var trimmed := Trim(nonceText);
      if trimmed == "" {
        return None;
      }
      hide Store;
      hide TokensUpTo;
      hide IssuedOnce;
      hide Outstanding;
      hide ClockNotPast;
      hide Trim;
      LookupMeaning(log, trimmed, now);
      SelfNamedKept(challenges, now, trimmed, Entry(trimmed, now, now));
      assert trimmed in challenges ==> challenges[trimmed].value == trimmed;
      hide SelfNamed;
      challenges := Purged(challenges, now);
      if trimmed in challenges {
        var record := challenges[trimmed];
        challenge := Some(Challenge(record.value, record.issuedAt, record.expiresAt));
      } else {
        challenge := None;
      }
      challenges := challenges - {trimmed};
      LogExtended(log, CHALLENGE_PREFIX, nonce, Take(trimmed, now), nonce);
      log := log + [Take(trimmed, now)];
    }
  }
}
