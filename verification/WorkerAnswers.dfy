/**
  What each call on the worker store answers and changes, told on the leases, the workers and the calls of a run
  rather than on the store's two index tables.
 */
module WorkerAnswers {
  import opened WorkerStore
  import opened Wrappers

  // ---------- The index tables hold exactly the leases

  function KeyOf(g: Grant): IdempotencyKey {
    IdempotencyKey(g.request.scope.organization, g.request.scope.actor, g.request.idempotencyKey)
  }

  ghost predicate KeysIndex(s: Store) {
    && (forall id <- s.leases ::
          KeyOf(s.leases[id].grant) in s.leaseKeys && s.leaseKeys[KeyOf(s.leases[id].grant)] == id)
    && (forall k <- s.leaseKeys :: s.leaseKeys[k] in s.leases && KeyOf(s.leases[s.leaseKeys[k]].grant) == k)
  }

  ghost predicate TokensIndex(s: Store) {
    && (forall id <- s.leases :: s.leases[id].grant.token in s.tokens && s.tokens[s.leases[id].grant.token] == id)
    && (forall t <- s.tokens :: s.tokens[t] in s.leases && s.leases[s.tokens[t]].grant.token == t)
  }

  /** A call that only marks leases keeps both indexes. */
  lemma MarksKeepIndexes(s: Store, s': Store)
    requires s'.leaseKeys == s.leaseKeys && s'.tokens == s.tokens && LeasesStep(s.leases, s'.leases)
    requires KeysIndex(s) && TokensIndex(s)
    ensures KeysIndex(s') && TokensIndex(s')
  {
    assert forall id <- s.leases :: LeaseStep(s.leases[id], s'.leases[id]);
  }

  lemma CreateKeepsKeys(s: Store, l: Lease)
    requires KeysIndex(s)
    ensures KeysIndex(CreateLease(s, l).0)
  {
  }

  lemma CreateKeepsTokens(s: Store, l: Lease)
    requires TokensIndex(s)
    ensures TokensIndex(CreateLease(s, l).0)
  {
  }

  lemma NoneMarked(leases: map<string, Lease>)
    ensures LeasesStep(leases, leases)
  {
    forall id <- leases ensures LeaseStep(leases[id], leases[id]) {
      LeaseKept(leases[id]);
    }
  }

  lemma OthersMark(s: Store, call: Call)
    requires !call.CallCreate?
    ensures var s' := Step(s, call);
            s'.leaseKeys == s.leaseKeys && s'.tokens == s.tokens && LeasesStep(s.leases, s'.leases)
  {
    NoneMarked(s.leases);
    match call
    case CallEnroll(record, digest, key, expected) => EnrollShape(s, record, digest, key, expected);
    case CallRevokeWorker(key, reason, _) => WorkerSweepMarks(s.leases, key, reason);
    case _ => LeaseCallMarks(s, call);
  }

  lemma {:induction false} Indexed(states: seq<Store>, calls: seq<Call>, i: nat)
    requires IsRun(states, calls) && i < |states|
    ensures KeysIndex(states[i]) && TokensIndex(states[i])
  {
    if i > 0 {
      Indexed(states, calls, i - 1);
      assert StepAt(states, calls, i - 1);
      var s, call := states[i - 1], calls[i - 1];
      if call.CallCreate? {
        CreateKeepsKeys(s, call.lease);
        CreateKeepsTokens(s, call.lease);
      } else {
        OthersMark(s, call);
        MarksKeepIndexes(s, states[i]);
      }
    }
  }

  // ---------- Leases

  /** A lease may be given out only for the worker as it is enrolled now. */
  predicate NamesCurrent(s: Store, w: Worker) {
    w.key in s.workers && s.workers[w.key] == w && w.active
  }

  /** Some lease of the table has the idempotency key of `g`, and was asked for with its request. */
  ghost predicate AskedBefore(s: Store, g: Grant) {
    exists id <- s.leases ::
      KeyOf(s.leases[id].grant) == KeyOf(g) && s.leases[id].grant.requestDigest == g.requestDigest
  }

  /** No lease of the table has the idempotency key, the id or the token of `g`. */
  ghost predicate Unused(s: Store, g: Grant) {
    g.id !in s.leases
    && forall id <- s.leases :: KeyOf(s.leases[id].grant) != KeyOf(g) && s.leases[id].grant.token != g.token
  }

  /** In every run a lease is created exactly when nothing of it is in use, and repeated for the same request. */
  lemma CreateAnswersExactly(states: seq<Store>, calls: seq<Call>, i: nat, l: Lease)
    requires IsRun(states, calls) && i < |states|
    ensures var s, r := states[i], CreateLease(states[i], l).1;
            && (r.LeaseDenied? <==> !NamesCurrent(s, l.grant.worker))
            && (r.LeaseNew? <==> NamesCurrent(s, l.grant.worker) && Unused(s, l.grant))
            && (r.LeaseReplay? <==> NamesCurrent(s, l.grant.worker) && AskedBefore(s, l.grant))
  {
    Indexed(states, calls, i);
    var s, g := states[i], l.grant;
    if KeyOf(g) in s.leaseKeys {
      assert KeyOf(s.leases[s.leaseKeys[KeyOf(g)]].grant) == KeyOf(g);
    } else if g.token in s.tokens {
      assert s.leases[s.tokens[g.token]].grant.token == g.token;
    }
  }

  /** A lease that was not in the table comes from a create call, which put it there as it was given. */
  lemma LeaseAppears(s: Store, call: Call, id: string)
    requires id !in s.leases && id in Step(s, call).leases
    ensures call.CallCreate? && CreateLease(s, call.lease).1.LeaseNew?
    ensures call.lease.grant.id == id && Step(s, call).leases[id] == call.lease
  {
    if !call.CallCreate? {
      OthersMark(s, call);
    }
  }

  /** Call `k` created the lease with this grant. */
  ghost predicate CreatedAt(states: seq<Store>, calls: seq<Call>, k: nat, g: Grant)
    requires k < |calls| && |states| == |calls| + 1
  {
    calls[k].CallCreate? && calls[k].lease.grant == g && CreateLease(states[k], calls[k].lease).1.LeaseNew?
  }

  /** Every lease of the table was created by an earlier call, with the id, the token and the expiry it still has. */
  lemma {:induction false} LeasesWereCreated(states: seq<Store>, calls: seq<Call>, i: nat, id: string)
    requires IsRun(states, calls) && i < |states| && id in states[i].leases
    ensures states[i].leases[id].grant.id == id && WasCreated(states, calls, i, states[i].leases[id].grant)
  {
    assert i > 0;
    if id in states[i - 1].leases {
      LeasesWereCreated(states, calls, i - 1, id);
      LeaseAfter(states, calls, i - 1, id);
    } else {
      JustCreated(states, calls, i - 1, id);
    }
  }

  ghost predicate WasCreated(states: seq<Store>, calls: seq<Call>, i: nat, g: Grant)
    requires i < |states| && |states| == |calls| + 1
  {
    exists k: nat :: k < i && CreatedAt(states, calls, k, g)
  }

  lemma JustCreated(states: seq<Store>, calls: seq<Call>, i: nat, id: string)
    requires IsRun(states, calls) && i < |calls| && id !in states[i].leases && id in states[i + 1].leases
    ensures var g := states[i + 1].leases[id].grant;
            g.id == id && CreatedAt(states, calls, i, g)
  {
    assert StepAt(states, calls, i);
    LeaseAppears(states[i], calls[i], id);
  }

  /** A lease's id, its token and its idempotency key each name it alone. */
  lemma LeasesAreNamedApart(states: seq<Store>, calls: seq<Call>, i: nat, a: string, b: string)
    requires IsRun(states, calls) && i < |states| && a in states[i].leases && b in states[i].leases
    requires var g, h := states[i].leases[a].grant, states[i].leases[b].grant;
             g.token == h.token || KeyOf(g) == KeyOf(h)
    ensures a == b
  {
    Indexed(states, calls, i);
  }

  /**
    In every run a call claims a lease exactly when it presents the lease's own token before its expiry, and the
    lease is neither revoked nor claimed. The token table then leads from that token to that lease.
   */
  lemma ClaimsExactly(states: seq<Store>, calls: seq<Call>, i: nat, id: string)
    requires IsRun(states, calls) && i < |calls|
    ensures Claims(states[i], calls[i], id) <==>
            && calls[i].CallClaim? && calls[i].id == id && id in states[i].leases
            && calls[i].token == states[i].leases[id].grant.token
            && !states[i].leases[id].revoked && !states[i].leases[id].consumed
            && calls[i].now < states[i].leases[id].grant.expiresAt
    ensures Claims(states[i], calls[i], id) ==>
            calls[i].token in states[i].tokens && states[i].tokens[calls[i].token] == id
  {
    Indexed(states, calls, i);
  }

  /** Why a claim is refused, the first reason that holds. */
  lemma RefusalsExactly(s: Store, id: string, token: string, now: int)
    ensures var r := ClaimLease(s, id, token, now).1;
            if id !in s.leases then r.NotFound?
            else var l := s.leases[id];
            && (r.WrongToken? <==> token != l.grant.token)
            && (r.Revoked? <==> token == l.grant.token && l.revoked)
            && (r.Expired? <==> token == l.grant.token && !l.revoked && l.grant.expiresAt <= now)
            && (r.Replayed? <==> token == l.grant.token && !l.revoked && now < l.grant.expiresAt && l.consumed)
            && (r.Claim? ==> r.lease == l.(consumed := true))
  {
  }

  /** The calls that revoke a lease, with the reason each leaves. */
  function Revokes(s: Store, call: Call, l: Lease): (reason: Option<string>) {
    match call
    case CallEnroll(record, digest, key, expected) =>
      if record.key in s.workers && Target(l) == record.key && Enroll(s, record, digest, key, expected).1.EnrollNew?
      then Some("worker_rotated") else None
    case CallRevokeWorker(key, reason, _) => if key in s.workers && Target(l) == key then Some(reason) else None
    case CallRevokeLease(id, reason) => if l.grant.id == id then Some(reason) else None
    case CallRevokeWorkerLeases(key, reason) => if Target(l) == key then Some(reason) else None
    case CallRevokeScope(area, reason) =>
      var scope := l.grant.request.scope;
      if scope.organization == area.organization && scope.tenant == area.tenant && area.caseId in {"", scope.caseId}
      then Some(reason) else None
    case _ => None
  }

  /** In every run a lease is revoked exactly by a revocation that covers it, and consumed exactly by a claim. */
  lemma MarksExactly(states: seq<Store>, calls: seq<Call>, i: nat, id: string)
    requires IsRun(states, calls) && i < |calls| && id in states[i].leases
    ensures id in states[i + 1].leases
    ensures var l, l' := states[i].leases[id], states[i + 1].leases[id];
            var why := Revokes(states[i], calls[i], l);
            && l'.grant == l.grant
            && (l'.revoked <==> l.revoked || why.Some?)
            && l'.reason == (if why.Some? then why.value else l.reason)
            && (l'.consumed <==> l.consumed || Claims(states[i], calls[i], id))
  {
    LeasesNameCurrentWorkers(states, calls, i);
    assert StepAt(states, calls, i);
    MarkedByStep(states[i], calls[i], id);
  }

  lemma MarkedByStep(s: Store, call: Call, id: string)
    requires WellFormed(s) && id in s.leases
    ensures MarkedAs(s, call, id, Revokes(s, call, s.leases[id]), Claims(s, call, id))
  {
    assert GrantOk(id, s.leases[id].grant, s.tokens);
    match call
    case CallEnroll(_, _, _, _) => MarkedByEnroll(s, call, id);
    case CallCreate(_) => MarkedByCreate(s, call, id);
    case CallClaim(_, _, _) => MarkedByClaim(s, call, id);
    case _ => MarkedByRevocation(s, call, id);
  }

  predicate MarkedAs(s: Store, call: Call, id: string, why: Option<string>, claimed: bool)
    requires id in s.leases
  {
    var leases := Step(s, call).leases;
    id in leases && leases[id] == Marked(s.leases[id], why, claimed)
  }

  function Marked(l: Lease, why: Option<string>, claimed: bool): Lease {
    Lease(l.grant, l.revoked || why.Some?, if why.Some? then why.value else l.reason, l.consumed || claimed)
  }

  lemma MarkedByEnroll(s: Store, call: Call, id: string)
    requires id in s.leases && call.CallEnroll?
    ensures MarkedAs(s, call, id, Revokes(s, call, s.leases[id]), false)
  {
  }

  lemma MarkedByCreate(s: Store, call: Call, id: string)
    requires id in s.leases && call.CallCreate?
    ensures MarkedAs(s, call, id, None, false)
  {
  }

  lemma MarkedByClaim(s: Store, call: Call, id: string)
    requires id in s.leases && call.CallClaim?
    ensures MarkedAs(s, call, id, None, Claims(s, call, id))
  {
  }

  lemma MarkedByRevocation(s: Store, call: Call, id: string)
    requires id in s.leases && s.leases[id].grant.id == id
    requires !call.CallEnroll? && !call.CallCreate? && !call.CallClaim?
    ensures MarkedAs(s, call, id, Revokes(s, call, s.leases[id]), false)
  {
  }

  // ---------- Workers

  predicate Enrolls(s: Store, call: Call) {
    call.CallEnroll? && Enroll(s, call.record, call.digest, call.idempotencyKey, call.expected).1.EnrollNew?
  }

  /** Call `k`, before `i`, enrolled this worker under this idempotency key. */
  ghost predicate EnrolledAt(states: seq<Store>, calls: seq<Call>, i: nat, k: nat, key: WorkerKey,
                             idempotencyKey: string)
    requires i < |states| && |states| == |calls| + 1
  {
    k < i && Enrolls(states[k], calls[k]) && calls[k].record.key == key && calls[k].idempotencyKey == idempotencyKey
  }

  /** The enrollment table grows by each successful enrollment, and changes in no other way. */
  lemma EnrollmentsStep(s: Store, call: Call)
    ensures Step(s, call).enrollments ==
            if Enrolls(s, call)
            then s.enrollments[(call.record.key, call.idempotencyKey)
                               := (call.digest, call.record.(revision := call.expected + 1))]
            else s.enrollments
    ensures Enrolls(s, call) ==> (call.record.key, call.idempotencyKey) !in s.enrollments
  {
  }

  /** The table holds exactly the successful enrollments. */
  lemma {:induction false} EnrollmentsWereCalls(states: seq<Store>, calls: seq<Call>, i: nat, key: WorkerKey,
                                                idempotencyKey: string)
    requires IsRun(states, calls) && i < |states|
    ensures (key, idempotencyKey) in states[i].enrollments <==>
            exists k: nat :: EnrolledAt(states, calls, i, k, key, idempotencyKey)
  {
    if i > 0 {
      EnrollmentsWereCalls(states, calls, i - 1, key, idempotencyKey);
      assert StepAt(states, calls, i - 1);
      EnrollmentsStep(states[i - 1], calls[i - 1]);
      if (key, idempotencyKey) in states[i - 1].enrollments {
        var k: nat :| EnrolledAt(states, calls, i - 1, k, key, idempotencyKey);
        assert EnrolledAt(states, calls, i, k, key, idempotencyKey);
      } else if (key, idempotencyKey) in states[i].enrollments {
        assert EnrolledAt(states, calls, i, i - 1, key, idempotencyKey);
      } else if k: nat :| EnrolledAt(states, calls, i, k, key, idempotencyKey) {
        assert EnrolledAt(states, calls, i - 1, k, key, idempotencyKey);
      }
    }
  }

  lemma {:induction false} EnrollmentStays(states: seq<Store>, calls: seq<Call>, i: nat, k: nat, key: WorkerKey,
                                           idempotencyKey: string)
    requires IsRun(states, calls) && i < |states| && EnrolledAt(states, calls, i, k, key, idempotencyKey)
    ensures (key, idempotencyKey) in states[i].enrollments
    ensures states[i].enrollments[(key, idempotencyKey)]
         == (calls[k].digest, calls[k].record.(revision := calls[k].expected + 1))
  {
    assert StepAt(states, calls, i - 1);
    EnrollmentsStep(states[i - 1], calls[i - 1]);
    if k < i - 1 {
      EnrollmentStays(states, calls, i - 1, k, key, idempotencyKey);
    }
  }

  /** An enrollment takes the place of the worker it names, at the revision the caller expects. */
  predicate InTurn(s: Store, record: Worker, expected: nat) {
    if record.key in s.workers
    then s.workers[record.key].revision == expected && s.workers[record.key].active
         && ValidateRotation(s.workers[record.key], record).None?
    else expected == 0
  }

  /** In every run an enrollment is new exactly when its key is, and the record follows the one it replaces. */
  lemma EnrollsExactly(states: seq<Store>, calls: seq<Call>, i: nat)
    requires IsRun(states, calls) && i < |calls| && calls[i].CallEnroll?
    ensures var call := calls[i];
            Enrolls(states[i], call) <==>
            && InTurn(states[i], call.record, call.expected)
            && !exists k: nat :: EnrolledAt(states, calls, i, k, call.record.key, call.idempotencyKey)
  {
    EnrollmentsWereCalls(states, calls, i, calls[i].record.key, calls[i].idempotencyKey);
  }

  /** An enrollment is repeated exactly for the digest it was made with, and while the worker is as it was then. */
  lemma EnrollReplaysExactly(states: seq<Store>, calls: seq<Call>, i: nat, k: nat)
    requires IsRun(states, calls) && i < |calls| && calls[i].CallEnroll?
    requires EnrolledAt(states, calls, i, k, calls[i].record.key, calls[i].idempotencyKey)
    ensures var s, call := states[i], calls[i];
            var r := Enroll(s, call.record, call.digest, call.idempotencyKey, call.expected).1;
            && (r.EnrollConflict? <==> call.digest != calls[k].digest)
            && (r.EnrollReplay? <==>
                && call.digest == calls[k].digest && call.record.key in s.workers && s.workers[call.record.key].active
                && s.workers[call.record.key].revision == calls[k].expected + 1)
            && (r.EnrollReplay? ==> r.worker == s.workers[call.record.key])
            && !r.EnrollNew?
  {
    EnrollmentStays(states, calls, i, k, calls[i].record.key, calls[i].idempotencyKey);
  }

  /** In every run the worker table changes only by an enrollment or a revocation, and in the worker named alone. */
  lemma WorkersChangeExactly(states: seq<Store>, calls: seq<Call>, i: nat, key: WorkerKey)
    requires IsRun(states, calls) && i < |calls|
    ensures var s, s', call := states[i], states[i + 1], calls[i];
            if Enrolls(s, call) && call.record.key == key then
              key in s'.workers && s'.workers[key] == call.record.(revision := call.expected + 1)
            else if call.CallRevokeWorker? && call.key == key && key in s.workers then
              && key in s'.workers
              && s'.workers[key] == s.workers[key].(active := false, revokedAt := call.at,
                                                    revocationReason := call.reason)
            else (key in s'.workers <==> key in s.workers) && (key in s.workers ==> s'.workers[key] == s.workers[key])
  {
    assert StepAt(states, calls, i);
  }
}
