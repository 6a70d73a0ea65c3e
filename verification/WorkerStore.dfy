/**
  Remote-worker enrollment and runner leases: five tables updated together.

  Rotating or revoking a worker sweeps its leases, so an unrevoked lease always names the worker as it
  is enrolled now.
 */
module WorkerStore {
  import opened Wrappers

  datatype WorkerKey = WorkerKey(organization: string, tenant: string, workerId: string)

  datatype Worker = Worker(
    key: WorkerKey, revision: nat, active: bool,
    transportDigest: string, certificateFingerprint: string, certificateRevision: nat,
    attestationKeyId: string, attestationKeyRevision: nat, attestationKeyDigest: string,
    attestationExpires: int, revokedAt: int, revocationReason: string)

  datatype LeaseScope = LeaseScope(organization: string, tenant: string, caseId: string, actor: string)

  datatype LeaseRequest = LeaseRequest(scope: LeaseScope, workerId: string, idempotencyKey: string)

  /** What a lease was issued for; never changed after issue. */
  datatype Grant = Grant(
    id: string, token: string, requestDigest: string, request: LeaseRequest, worker: Worker, issuedAt: int,
        expiresAt: int)

  datatype Lease = Lease(grant: Grant, revoked: bool, reason: string, consumed: bool)

  datatype IdempotencyKey = IdempotencyKey(organization: string, actor: string, key: string)

  datatype Store = Store(
    workers: map<WorkerKey, Worker>,
    enrollments: map<(WorkerKey, string), (string, Worker)>,
    leases: map<string, Lease>,
    leaseKeys: map<IdempotencyKey, string>,
    tokens: map<string, string>)

  const EMPTY := Store(map[], map[], map[], map[], map[])

  datatype Enrolled =
    | EnrollNew(worker: Worker)
    | EnrollReplay(worker: Worker)
    | EnrollConflict
    | EnrollDenied(reason: string)

  datatype Created = LeaseNew | LeaseReplay | LeaseConflict | LeaseDenied

  datatype Claimed = Claim(lease: Lease) | NotFound | WrongToken | Revoked | Expired | Replayed

  /** The worker a lease request is addressed to. */
  function Target(l: Lease): WorkerKey {
    WorkerKey(l.grant.request.scope.organization, l.grant.request.scope.tenant, l.grant.request.workerId)
  }

  /** The continuity rules a re-enrollment must meet. */
  function ValidateRotation(current: Worker, next: Worker): (reason: Option<string>)
    ensures reason.None? <==>
            && next.key == current.key
            && current.certificateRevision <= next.certificateRevision
            && current.attestationKeyRevision <= next.attestationKeyRevision
            && (next.certificateRevision == current.certificateRevision <==>
                next.certificateFingerprint == current.certificateFingerprint)
            && (next.attestationKeyRevision == current.attestationKeyRevision <==>
                next.attestationKeyDigest == current.attestationKeyDigest)
            && (next.certificateRevision == current.certificateRevision ==>
                next.transportDigest == current.transportDigest)
            && (next.attestationKeyRevision == current.attestationKeyRevision ==>
                next.attestationKeyId == current.attestationKeyId)
  {
    if current.key != next.key || next.certificateRevision < current.certificateRevision ||
       next.attestationKeyRevision < current.attestationKeyRevision then Some("worker_rotation_invalid")
    else if next.certificateRevision == current.certificateRevision &&
            (next.certificateFingerprint != current.certificateFingerprint
             || next.transportDigest != current.transportDigest) then
      Some("certificate_continuity_invalid")
    else if next.certificateRevision > current.certificateRevision
            && next.certificateFingerprint == current.certificateFingerprint then
      Some("certificate_rotation_invalid")
    else if next.attestationKeyRevision == current.attestationKeyRevision
            && next.attestationKeyId != current.attestationKeyId then
      Some("attestation_key_continuity_invalid")
    else if next.attestationKeyRevision == current.attestationKeyRevision
            && next.attestationKeyDigest != current.attestationKeyDigest then
      Some("attestation_key_continuity_invalid")
    else if next.attestationKeyRevision > current.attestationKeyRevision
            && next.attestationKeyDigest == current.attestationKeyDigest then
      Some("attestation_key_rotation_invalid")
    else None
  }

  function Revoke(l: Lease, reason: string): Lease {
    l.(revoked := true, reason := reason)
  }

  /** Revokes every lease addressed to one worker. */
  function SweepWorker(leases: map<string, Lease>, key: WorkerKey, reason: string): map<string, Lease> {
    map id | id in leases :: if Target(leases[id]) == key then Revoke(leases[id], reason) else leases[id]
  }

  /** A stop scope as the control passes it; an empty case covers the tenant. */
  datatype Area = Area(organization: string, tenant: string, caseId: string)

  predicate InScope(l: Lease, area: Area) {
    && l.grant.request.scope.organization == area.organization && l.grant.request.scope.tenant == area.tenant
    && (area.caseId == "" || l.grant.request.scope.caseId == area.caseId)
  }

  ghost function Matching(leases: map<string, Lease>, area: Area): set<string> {
    set id | id in leases && InScope(leases[id], area)
  }

  ghost function Addressed(leases: map<string, Lease>, key: WorkerKey): set<string> {
    set id | id in leases && Target(leases[id]) == key
  }

  ghost function RevokeAll(leases: map<string, Lease>, ids: set<string>, reason: string): map<string, Lease> {
    map id | id in leases :: if id in ids then Revoke(leases[id], reason) else leases[id]
  }

  lemma RevokeOneMore(leases: map<string, Lease>, ids: set<string>, id: string, reason: string)
    requires id in leases && id !in ids
    ensures var some := RevokeAll(leases, ids, reason);
            some[id] == leases[id] && some[id := Revoke(leases[id], reason)] == RevokeAll(leases, ids + {id}, reason)
  {
  }

  /** Revokes every lease in a stop scope. */
  function SweepScope(leases: map<string, Lease>, area: Area, reason: string): map<string, Lease> {
    map id | id in leases :: if InScope(leases[id], area) then Revoke(leases[id], reason) else leases[id]
  }

  function Enroll(s: Store, record: Worker, digest: string, idempotencyKey: string, expected: nat): (Store, Enrolled) {
    var key := record.key;
    var replay := (key, idempotencyKey);
    if replay in s.enrollments then
      if s.enrollments[replay].0 != digest then (s, EnrollConflict)
      else if key !in s.workers || !s.workers[key].active
              || s.workers[key].revision != s.enrollments[replay].1.revision then
        (s, EnrollDenied("worker_revoked_or_rotated"))
      else (s, EnrollReplay(s.workers[key]))
    else if (key !in s.workers && expected != 0) || (key in s.workers && s.workers[key].revision != expected) then
      (s, EnrollConflict)
    else if key in s.workers && !s.workers[key].active then (s, EnrollDenied("worker_revoked"))
    else if key in s.workers && ValidateRotation(s.workers[key], record).Some? then
      (s, EnrollDenied(ValidateRotation(s.workers[key], record).value))
    else
      var next := record.(revision := expected + 1);
      (s.(workers := s.workers[key := next], enrollments := s.enrollments[replay := (digest, next)],
          leases := if key in s.workers then SweepWorker(s.leases, key, "worker_rotated") else s.leases),
       EnrollNew(next))
  }

  function RevokeWorker(s: Store, key: WorkerKey, reason: string, at: int): (Store, Option<Worker>) {
    if key !in s.workers then (s, None)
    else
      var next := s.workers[key].(active := false, revokedAt := at, revocationReason := reason);
      (s.(workers := s.workers[key := next], leases := SweepWorker(s.leases, key, reason)), Some(next))
  }

  function CreateLease(s: Store, l: Lease): (Store, Created) {
    var key := IdempotencyKey(l.grant.request.scope.organization, l.grant.request.scope.actor,
                              l.grant.request.idempotencyKey);
    var worker := l.grant.worker;
    if worker.key !in s.workers || !s.workers[worker.key].active || s.workers[worker.key] != worker then
      (s, LeaseDenied)
    else if key in s.leaseKeys then
      var id := s.leaseKeys[key];
      (s, if id in s.leases && s.leases[id].grant.requestDigest == l.grant.requestDigest then LeaseReplay
       else LeaseConflict)
    else if l.grant.id in s.leases || l.grant.token in s.tokens then (s, LeaseConflict)
    else
      (s.(leases := s.leases[l.grant.id := l], leaseKeys := s.leaseKeys[key := l.grant.id],
          tokens := s.tokens[l.grant.token := l.grant.id]), LeaseNew)
  }

  function ClaimLease(s: Store, id: string, token: string, now: int): (Store, Claimed) {
    if id !in s.leases then (s, NotFound)
    else if s.leases[id].grant.token != token then (s, WrongToken)
    else if s.leases[id].revoked then (s, Revoked)
    else if now >= s.leases[id].grant.expiresAt then (s, Expired)
    else if s.leases[id].consumed then (s, Replayed)
    else
      var l := s.leases[id].(consumed := true);
      (s.(leases := s.leases[id := l]), Claim(l))
  }

  function RevokeLease(s: Store, id: string, reason: string): (Store, bool) {
    if id in s.leases then (s.(leases := s.leases[id := Revoke(s.leases[id], reason)]), true) else (s, false)
  }

  /** The broker's expiry for a new lease: the clamped time to live, cut at the attestation's expiry. */
  function IssueExpiry(now: int, ttl: nat, maximumTtl: nat, attestationExpires: int): (r: Option<int>)
    ensures r.Some? ==>
            now < r.value && r.value <= now + ttl && r.value <= now + maximumTtl && r.value <= attestationExpires
    ensures r.Some? ==> r.value == now + ttl || r.value == now + maximumTtl || r.value == attestationExpires
    ensures r.None? <==> ttl == 0 || maximumTtl == 0 || attestationExpires <= now
  {
    var bounded := now + (if ttl > maximumTtl then maximumTtl else ttl);
    var expires := if bounded > attestationExpires then attestationExpires else bounded;
    if expires <= now then None else Some(expires)
  }

  /** The store object: the sweeps are loops over the lease table. */
  class MemoryStore {
    var workers: map<WorkerKey, Worker>
    var enrollments: map<(WorkerKey, string), (string, Worker)>
    var leases: map<string, Lease>
    var leaseKeys: map<IdempotencyKey, string>
    var tokens: map<string, string>

    ghost function View(): Store
      reads this
    {
      Store(workers, enrollments, leases, leaseKeys, tokens)
    }

    constructor ()
      ensures View() == EMPTY
    {
      workers, enrollments, leases, leaseKeys, tokens := map[], map[], map[], map[], map[];
    }

    method RevokeWorkerLeases(key: WorkerKey, reason: string)
      modifies this`leases
      ensures leases == SweepWorker(old(leases), key, reason)
    {
      ghost var seen: set<string> := {};
      var todo := leases.Keys;
      while todo != {}
        invariant todo <= leases.Keys
        invariant forall id :: id in seen <==> id in Addressed(old(leases), key) && id !in todo
        invariant leases == RevokeAll(old(leases), seen, reason)
        decreases |todo|
      {
        var id :| id in todo;
        if Target(leases[id]) == key {
          RevokeOneMore(old(leases), seen, id, reason);
          seen := seen + {id};
          leases := leases[id := Revoke(leases[id], reason)];
        }
        todo := todo - {id};
      }
      assert seen == Addressed(old(leases), key);
    }

    method EnrollWorker(record: Worker, digest: string, idempotencyKey: string, expected: nat) returns (r: Enrolled)
      modifies this
      ensures (View(), r) == Enroll(old(View()), record, digest, idempotencyKey, expected)
    {
      var key := record.key;
      var replay := (key, idempotencyKey);
      if replay in enrollments {
        var previous := enrollments[replay];
        if previous.0 != digest {
          return EnrollConflict;
        }
        if key !in workers || !workers[key].active || workers[key].revision != previous.1.revision {
          return EnrollDenied("worker_revoked_or_rotated");
        }
        return EnrollReplay(workers[key]);
      }
      var enrolled := key in workers;
      if (!enrolled && expected != 0) || (enrolled && workers[key].revision != expected) {
        return EnrollConflict;
      }
      if enrolled {
        if !workers[key].active {
          return EnrollDenied("worker_revoked");
        }
        var problem := ValidateRotation(workers[key], record);
        if problem.Some? {
          return EnrollDenied(problem.value);
        }
        RevokeWorkerLeases(key, "worker_rotated");
      }
      var next := record.(revision := expected + 1);
      workers := workers[key := next];
      enrollments := enrollments[replay := (digest, next)];
      r := EnrollNew(next);
    }

    method RevokeEnrolled(key: WorkerKey, reason: string, at: int) returns (r: Option<Worker>)
      modifies this
      ensures (View(), r) == RevokeWorker(old(View()), key, reason, at)
    {
      if key !in workers {
        return None;
      }
      var next := workers[key].(active := false, revokedAt := at, revocationReason := reason);
      workers := workers[key := next];
      RevokeWorkerLeases(key, reason);
      r := Some(next);
    }

    method Create(l: Lease) returns (r: Created)
      modifies this
      ensures (View(), r) == CreateLease(old(View()), l)
    {
      var worker := l.grant.worker;
      if worker.key !in workers || !workers[worker.key].active || workers[worker.key] != worker {
        return LeaseDenied;
      }
      var key := IdempotencyKey(l.grant.request.scope.organization, l.grant.request.scope.actor,
                                l.grant.request.idempotencyKey);
      if key in leaseKeys {
        var previous := leaseKeys[key];
        return if previous in leases && leases[previous].grant.requestDigest == l.grant.requestDigest then LeaseReplay
          else LeaseConflict;
      }
      if l.grant.id in leases || l.grant.token in tokens {
        return LeaseConflict;
      }
      leases := leases[l.grant.id := l];
      leaseKeys := leaseKeys[key := l.grant.id];
      tokens := tokens[l.grant.token := l.grant.id];
      r := LeaseNew;
    }

    /** A claim marks the lease consumed; each refusal leaves the table as it was. */
    method ClaimOnce(id: string, token: string, now: int) returns (r: Claimed)
      modifies this
      ensures (View(), r) == ClaimLease(old(View()), id, token, now)
    {
      if id !in leases {
        return NotFound;
      }
      var record := leases[id];
      if record.grant.token != token {
        return WrongToken;
      }
      if record.revoked {
        return Revoked;
      }
      if now >= record.grant.expiresAt {
        return Expired;
      }
      if record.consumed {
        return Replayed;
      }
      record := record.(consumed := true);
      leases := leases[id := record];
      r := Claim(record);
    }

    /** The emergency-stop control's sweep; `matched` counts the leases in scope. */
    method RevokeLeaseScope(area: Area, reason: string) returns (matched: nat)
      modifies this`leases
      ensures leases == SweepScope(old(leases), area, reason)
      ensures matched == |Matching(old(leases), area)|
    {
      matched := 0;
      ghost var seen: set<string> := {};
      var todo := leases.Keys;
      while todo != {}
        invariant todo <= leases.Keys && matched == |seen|
        invariant forall id :: id in seen <==> id in Matching(old(leases), area) && id !in todo
        invariant leases == RevokeAll(old(leases), seen, reason)
        decreases |todo|
      {
        var id :| id in todo;
        if InScope(leases[id], area) {
          matched := matched + 1;
          RevokeOneMore(old(leases), seen, id, reason);
          seen := seen + {id};
          leases := leases[id := Revoke(leases[id], reason)];
        }
        todo := todo - {id};
      }
      assert seen == Matching(old(leases), area);
    }
  }

  // ---------- Every run of the store

  datatype Call =
    | CallEnroll(record: Worker, digest: string, idempotencyKey: string, expected: nat)
    | CallRevokeWorker(key: WorkerKey, reason: string, at: int)
    | CallCreate(lease: Lease)
    | CallClaim(id: string, token: string, now: int)
    | CallRevokeLease(id: string, reason: string)
    | CallRevokeWorkerLeases(key: WorkerKey, reason: string)
    | CallRevokeScope(area: Area, reason: string)

  function Step(s: Store, call: Call): Store {
    match call
    case CallEnroll(record, digest, key, expected) => Enroll(s, record, digest, key, expected).0
    case CallRevokeWorker(key, reason, at) => RevokeWorker(s, key, reason, at).0
    case CallCreate(l) => CreateLease(s, l).0
    case CallClaim(id, token, now) => ClaimLease(s, id, token, now).0
    case CallRevokeLease(id, reason) => RevokeLease(s, id, reason).0
    case CallRevokeWorkerLeases(key, reason) => s.(leases := SweepWorker(s.leases, key, reason))
    case CallRevokeScope(area, reason) =>
      s.(leases := SweepScope(s.leases, area, reason))
  }

  /** What the broker's `Enroll` and `Issue` establish before they call the store. */
  predicate FromBroker(call: Call) {
    match call
    case CallEnroll(record, _, _, _) => record.active
    case CallCreate(l) =>
      Target(l) == l.grant.worker.key && !l.revoked && !l.consumed
      && l.grant.issuedAt < l.grant.expiresAt <= l.grant.worker.attestationExpires
    case _ => true
  }

  /** An unrevoked lease names an active worker, exactly as it is enrolled now. */
  ghost predicate LeasesCurrent(s: Store) {
    forall id <- s.leases | !s.leases[id].revoked ::
      var l := s.leases[id];
      Target(l) in s.workers && s.workers[Target(l)] == l.grant.worker && l.grant.worker.active
  }

  ghost predicate WorkersOk(workers: map<WorkerKey, Worker>) {
    forall key <- workers :: workers[key].key == key && workers[key].revision > 0
  }

  predicate GrantOk(id: string, g: Grant, tokens: map<string, string>) {
    g.id == id && g.token in tokens && tokens[g.token] == id && g.expiresAt <= g.worker.attestationExpires
  }

  ghost predicate LeasesOk(leases: map<string, Lease>, tokens: map<string, string>) {
    forall id <- leases :: GrantOk(id, leases[id].grant, tokens)
  }

  ghost predicate KeysOk(keys: map<IdempotencyKey, string>, leases: map<string, Lease>) {
    forall key <- keys :: keys[key] in leases
  }

  ghost predicate WellFormed(s: Store) {
    WorkersOk(s.workers) && LeasesOk(s.leases, s.tokens) && KeysOk(s.leaseKeys, s.leases)
  }

  /** How a worker record may change in one call. */
  predicate WorkerStep(w: Worker, w': Worker) {
    && w'.key == w.key
    && w.certificateRevision <= w'.certificateRevision
    && w.attestationKeyRevision <= w'.attestationKeyRevision
    && (w'.active ==> w.active)
    && (w' == w || (w'.active && w'.revision == w.revision + 1) || (!w'.active && w'.revision == w.revision))
  }

  /** How a lease may change in one call. */
  predicate LeaseStep(l: Lease, l': Lease) {
    && l'.grant == l.grant
    && (l.revoked ==> l'.revoked) && (l.consumed ==> l'.consumed)
    && (l'.consumed && !l.consumed ==> !l.revoked)
  }

  ghost predicate Advances(s: Store, s': Store) {
    && (forall key <- s.workers :: key in s'.workers && WorkerStep(s.workers[key], s'.workers[key]))
    && (forall id <- s.leases :: id in s'.leases && LeaseStep(s.leases[id], s'.leases[id]))
  }

  /** The leases change in their marks only. */
  ghost predicate LeasesStep(a: map<string, Lease>, b: map<string, Lease>) {
    a.Keys == b.Keys && forall id <- a :: LeaseStep(a[id], b[id])
  }

  lemma WorkerSweepMarks(leases: map<string, Lease>, key: WorkerKey, reason: string)
    ensures LeasesStep(leases, SweepWorker(leases, key, reason))
  {
  }

  lemma ScopeSweepMarks(leases: map<string, Lease>, area: Area, reason: string)
    ensures LeasesStep(leases, SweepScope(leases, area, reason))
  {
  }

  lemma UpdateMarks(leases: map<string, Lease>, id: string, l: Lease)
    requires id in leases && LeaseStep(leases[id], l)
    ensures LeasesStep(leases, leases[id := l])
  {
    assert leases[id := l].Keys == leases.Keys;
  }

  predicate LeaseCall(call: Call) {
    !call.CallEnroll? && !call.CallRevokeWorker? && !call.CallCreate?
  }

  /** A call about leases that exist leaves all but their marks alone. */
  lemma LeaseCallMarks(s: Store, call: Call)
    requires LeaseCall(call)
    ensures Step(s, call) == s.(leases := Step(s, call).leases) && LeasesStep(s.leases, Step(s, call).leases)
  {
    match call
    case CallRevokeWorkerLeases(key, reason) => WorkerSweepMarks(s.leases, key, reason);
    case CallRevokeScope(area, reason) => ScopeSweepMarks(s.leases, area, reason);
    case CallClaim(id, token, now) => ClaimMarks(s, id, token, now);
    case CallRevokeLease(id, reason) =>
      if id in s.leases {
        UpdateMarks(s.leases, id, Revoke(s.leases[id], reason));
      }
  }

  lemma ClaimMarks(s: Store, id: string, token: string, now: int)
    ensures var s' := ClaimLease(s, id, token, now).0;
            s' == s.(leases := s'.leases) && LeasesStep(s.leases, s'.leases)
  {
    if ClaimLease(s, id, token, now).1.Claim? {
      UpdateMarks(s.leases, id, s.leases[id].(consumed := true));
    }
  }

  lemma WorkerKept(w: Worker)
    ensures WorkerStep(w, w)
  {
  }

  lemma MarksAdvance(s: Store, leases: map<string, Lease>)
    requires LeasesStep(s.leases, leases)
    ensures Advances(s, s.(leases := leases))
  {
    forall key <- s.workers ensures WorkerStep(s.workers[key], s.workers[key]) {
      WorkerKept(s.workers[key]);
    }
  }

  lemma MarksKeepLeases(s: Store, leases: map<string, Lease>)
    requires LeasesOk(s.leases, s.tokens) && KeysOk(s.leaseKeys, s.leases) && LeasesStep(s.leases, leases)
    ensures LeasesOk(leases, s.tokens) && KeysOk(s.leaseKeys, leases)
  {
  }

  lemma MarksKeepCurrent(s: Store, leases: map<string, Lease>)
    requires LeasesCurrent(s) && LeasesStep(s.leases, leases)
    ensures LeasesCurrent(s.(leases := leases))
  {
    forall id <- leases | !leases[id].revoked
      ensures var l := leases[id];
              Target(l) in s.workers && s.workers[Target(l)] == l.grant.worker && l.grant.worker.active
    {
      assert LeaseStep(s.leases[id], leases[id]);
    }
  }

  /** An enrollment replaces one worker and sweeps its leases, or changes nothing. */
  lemma EnrollShape(s: Store, record: Worker, digest: string, idempotencyKey: string, expected: nat)
    ensures var s' := Enroll(s, record, digest, idempotencyKey, expected).0;
            s' == s
            || (s'.workers == s.workers[record.key := record.(revision := expected + 1)]
                && s'.leaseKeys == s.leaseKeys && s'.tokens == s.tokens && LeasesStep(s.leases, s'.leases))
  {
    WorkerSweepMarks(s.leases, record.key, "worker_rotated");
  }

  lemma EnrollWorkerStep(s: Store, record: Worker, digest: string, idempotencyKey: string, expected: nat,
                         key: WorkerKey)
    requires WellFormed(s) && record.active && key in s.workers
    ensures key in Enroll(s, record, digest, idempotencyKey, expected).0.workers
    ensures WorkerStep(s.workers[key], Enroll(s, record, digest, idempotencyKey, expected).0.workers[key])
  {
  }

  lemma LeaseKept(l: Lease)
    ensures LeaseStep(l, l)
  {
  }

  lemma EnrollAdvances(s: Store, record: Worker, digest: string, idempotencyKey: string, expected: nat)
    requires WellFormed(s) && record.active
    ensures Advances(s, Enroll(s, record, digest, idempotencyKey, expected).0)
  {
    forall key <- s.workers
      ensures key in Enroll(s, record, digest, idempotencyKey, expected).0.workers
      ensures WorkerStep(s.workers[key], Enroll(s, record, digest, idempotencyKey, expected).0.workers[key])
    {
      EnrollWorkerStep(s, record, digest, idempotencyKey, expected, key);
    }
    forall id <- s.leases ensures LeaseStep(s.leases[id], s.leases[id]) {
      LeaseKept(s.leases[id]);
    }
    EnrollShape(s, record, digest, idempotencyKey, expected);
  }

  lemma RevokeAdvances(s: Store, key: WorkerKey, reason: string, at: int)
    requires WellFormed(s)
    ensures Advances(s, RevokeWorker(s, key, reason, at).0)
  {
    WorkerSweepMarks(s.leases, key, reason);
    forall k <- s.workers
      ensures WorkerStep(s.workers[k], RevokeWorker(s, key, reason, at).0.workers[k])
    {
      RevokeWorkerStep(s, key, reason, at, k);
    }
  }

  lemma RevokeWorkerStep(s: Store, key: WorkerKey, reason: string, at: int, k: WorkerKey)
    requires k in s.workers
    ensures k in RevokeWorker(s, key, reason, at).0.workers
    ensures WorkerStep(s.workers[k], RevokeWorker(s, key, reason, at).0.workers[k])
  {
  }

  lemma CreateAdvances(s: Store, l: Lease)
    ensures Advances(s, CreateLease(s, l).0)
  {
  }

  lemma StepAdvances(s: Store, call: Call)
    requires WellFormed(s) && FromBroker(call)
    ensures Advances(s, Step(s, call))
  {
    match call
    case CallEnroll(record, digest, key, expected) => EnrollAdvances(s, record, digest, key, expected);
    case CallRevokeWorker(key, reason, at) => RevokeAdvances(s, key, reason, at);
    case CallCreate(l) => CreateAdvances(s, l);
    case _ =>
      LeaseCallMarks(s, call);
      MarksAdvance(s, Step(s, call).leases);
  }

  lemma EnrollWellFormed(s: Store, record: Worker, digest: string, idempotencyKey: string, expected: nat)
    requires WellFormed(s)
    ensures WellFormed(Enroll(s, record, digest, idempotencyKey, expected).0)
  {
    EnrollShape(s, record, digest, idempotencyKey, expected);
    var s' := Enroll(s, record, digest, idempotencyKey, expected).0;
    if s' != s {
      MarksKeepLeases(s, s'.leases);
    }
  }

  lemma RevokeWellFormed(s: Store, key: WorkerKey, reason: string, at: int)
    requires WellFormed(s)
    ensures WellFormed(RevokeWorker(s, key, reason, at).0)
  {
    WorkerSweepMarks(s.leases, key, reason);
    MarksKeepLeases(s, SweepWorker(s.leases, key, reason));
  }

  lemma CreateWellFormed(s: Store, l: Lease)
    requires WellFormed(s) && FromBroker(CallCreate(l))
    ensures WellFormed(CreateLease(s, l).0)
  {
  }

  lemma StepWellFormed(s: Store, call: Call)
    requires WellFormed(s) && FromBroker(call)
    ensures WellFormed(Step(s, call))
  {
    match call
    case CallEnroll(record, digest, key, expected) => EnrollWellFormed(s, record, digest, key, expected);
    case CallRevokeWorker(key, reason, at) => RevokeWellFormed(s, key, reason, at);
    case CallCreate(l) => CreateWellFormed(s, l);
    case _ =>
      LeaseCallMarks(s, call);
      MarksKeepLeases(s, Step(s, call).leases);
  }

  lemma EnrollLeasesCurrent(s: Store, call: Call)
    requires WellFormed(s) && LeasesCurrent(s) && FromBroker(call) && call.CallEnroll?
    ensures LeasesCurrent(Step(s, call))
  {
  }

  lemma RevokeLeasesCurrent(s: Store, call: Call)
    requires WellFormed(s) && LeasesCurrent(s) && FromBroker(call) && call.CallRevokeWorker?
    ensures LeasesCurrent(Step(s, call))
  {
  }

  lemma CreateLeasesCurrent(s: Store, l: Lease)
    requires LeasesCurrent(s) && FromBroker(CallCreate(l))
    ensures LeasesCurrent(CreateLease(s, l).0)
  {
  }

  lemma StepLeasesCurrent(s: Store, call: Call)
    requires WellFormed(s) && LeasesCurrent(s) && FromBroker(call)
    ensures LeasesCurrent(Step(s, call))
  {
    match call
    case CallEnroll(_, _, _, _) => EnrollLeasesCurrent(s, call);
    case CallRevokeWorker(_, _, _) => RevokeLeasesCurrent(s, call);
    case CallCreate(l) => CreateLeasesCurrent(s, l);
    case _ =>
      LeaseCallMarks(s, call);
      MarksKeepCurrent(s, Step(s, call).leases);
  }

  /** Step `i` is that of its call. */
  ghost predicate StepAt(states: seq<Store>, calls: seq<Call>, i: nat)
    requires i < |calls| && |states| == |calls| + 1
  {
    FromBroker(calls[i]) && states[i + 1] == Step(states[i], calls[i])
  }

  /** A run: any sequence of broker calls from the empty store. */
  ghost predicate IsRun(states: seq<Store>, calls: seq<Call>) {
    && |states| == |calls| + 1
    && states[0] == EMPTY
    && forall i | 0 <= i < |calls| :: StepAt(states, calls, i)
  }

  /** In every reachable state each unrevoked lease names the current, active worker. */
  lemma {:induction false} LeasesNameCurrentWorkers(states: seq<Store>, calls: seq<Call>, i: nat)
    requires IsRun(states, calls) && i < |states|
    ensures WellFormed(states[i]) && LeasesCurrent(states[i])
  {
    if i > 0 {
      LeasesNameCurrentWorkers(states, calls, i - 1);
      assert StepAt(states, calls, i - 1);
      StepWellFormed(states[i - 1], calls[i - 1]);
      StepLeasesCurrent(states[i - 1], calls[i - 1]);
    }
  }

  lemma WorkerAfter(states: seq<Store>, calls: seq<Call>, i: nat, key: WorkerKey)
    requires IsRun(states, calls) && i < |calls| && key in states[i].workers
    ensures key in states[i + 1].workers && WorkerStep(states[i].workers[key], states[i + 1].workers[key])
  {
    LeasesNameCurrentWorkers(states, calls, i);
    assert StepAt(states, calls, i);
    StepAdvances(states[i], calls[i]);
  }

  lemma LeaseAfter(states: seq<Store>, calls: seq<Call>, i: nat, id: string)
    requires IsRun(states, calls) && i < |calls| && id in states[i].leases
    ensures id in states[i + 1].leases && LeaseStep(states[i].leases[id], states[i + 1].leases[id])
  {
    LeasesNameCurrentWorkers(states, calls, i);
    assert StepAt(states, calls, i);
    StepAdvances(states[i], calls[i]);
  }

  /** Over any stretch of a run revisions never fall, and a revoked worker never becomes active again. */
  lemma {:induction false} WorkersOnlyAdvance(states: seq<Store>, calls: seq<Call>, i: nat, j: nat, key: WorkerKey)
    requires IsRun(states, calls) && i <= j < |states| && key in states[i].workers
    ensures key in states[j].workers
    ensures var w, w' := states[i].workers[key], states[j].workers[key];
            && w.revision <= w'.revision && w.certificateRevision <= w'.certificateRevision
            && w.attestationKeyRevision <= w'.attestationKeyRevision
            && (w'.active ==> w.active)
            && (!w.active ==> w'.revision == w.revision)
    decreases j
  {
    if i < j {
      WorkersOnlyAdvance(states, calls, i, j - 1, key);
      WorkerAfter(states, calls, j - 1, key);
    }
  }

  /** A successful re-enrollment raises the revision by exactly one and revokes every earlier lease of the worker. */
  lemma RotationRevokesLeases(s: Store, record: Worker, digest: string, idempotencyKey: string, expected: nat)
    requires WellFormed(s) && record.key in s.workers
             && Enroll(s, record, digest, idempotencyKey, expected).1.EnrollNew?
    ensures var s' := Enroll(s, record, digest, idempotencyKey, expected).0;
            && s'.workers[record.key].revision == s.workers[record.key].revision + 1
            && forall id <- s'.leases | Target(s'.leases[id]) == record.key :: s'.leases[id].revoked
  {
  }

  predicate Claims(s: Store, call: Call, id: string) {
    call.CallClaim? && call.id == id && ClaimLease(s, id, call.token, call.now).1.Claim?
  }

  lemma {:induction false} ConsumedForever(states: seq<Store>, calls: seq<Call>, i: nat, j: nat, id: string)
    requires IsRun(states, calls) && i <= j < |states| && id in states[i].leases && states[i].leases[id].consumed
    ensures id in states[j].leases && states[j].leases[id].consumed
    decreases j
  {
    if i < j {
      ConsumedForever(states, calls, i, j - 1, id);
      LeaseAfter(states, calls, j - 1, id);
    }
  }

  /** Over any run a lease is claimed at most once. */
  lemma ClaimedAtMostOnce(states: seq<Store>, calls: seq<Call>, i: nat, j: nat, id: string)
    requires IsRun(states, calls) && i < |calls| && j < |calls|
    requires Claims(states[i], calls[i], id) && Claims(states[j], calls[j], id)
    ensures i == j
  {
    if i < j {
      assert StepAt(states, calls, i);
      ConsumedForever(states, calls, i + 1, j, id);
    } else if j < i {
      assert StepAt(states, calls, j);
      ConsumedForever(states, calls, j + 1, i, id);
    }
  }
}
