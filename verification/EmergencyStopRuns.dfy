/** Sequences of calls to the emergency-stop stores: what they keep, and that the two stores agree. */
module EmergencyStopRuns {
  import opened StopScope
  import opened Wrappers
  import opened EmergencyStopStore

  datatype Call =
    | Activate(candidate: Candidate)
    | Effective(owner: CaseRef)
    | Reserve(decision: Decision)
    | RecordControl(state: State, ack: Acknowledgement, decision: Decision)
    | Pending(limit: int)
    | Mark(id: string)

  datatype Reply =
    | ActivateReply(activated: Activated)
    | EffectiveReply(state: Option<State>)
    | ReserveReply(audit: Audit)
    | ControlReply(recorded: Recorded)
    | PendingReply(rows: Result<seq<Audit>>)
    | MarkReply(found: bool)

  ghost function MemoryStep(hash: Hash, t: Tables, call: Call): (Tables, Reply) {
    match call
    case Activate(c) => var r := MemoryActivate(hash, t, c); (r.0, ActivateReply(r.1))
    case Effective(c) => (t, EffectiveReply(MemoryEffective(t, c)))
    case Reserve(d) => (PutAudit(t, NewAudit(d)), ReserveReply(NewAudit(d)))
    case RecordControl(state, ack, d) => var r := MemoryRecord(t, state, ack, d); (r.0, ControlReply(r.1))
    case Pending(limit) => (t, PendingReply(MemoryPending(t, limit)))
    case Mark(id) => var r := MarkDelivered(t, id); (r.0, MarkReply(r.1))
  }

  ghost function SqliteStep(hash: Hash, t: Tables, call: Call): (Tables, Reply) {
    match call
    case Activate(c) => var r := SqliteActivate(hash, t, c); (r.0, ActivateReply(r.1))
    case Effective(c) => (t, EffectiveReply(SqliteEffective(t, c)))
    case Reserve(d) => (PutAudit(t, NewAudit(d)), ReserveReply(NewAudit(d)))
    case RecordControl(state, ack, d) => var r := SqliteRecord(t, state, ack, d); (r.0, ControlReply(r.1))
    case Pending(limit) => (t, PendingReply(SqlitePending(t, limit)))
    case Mark(id) => var r := MarkDelivered(t, id); (r.0, MarkReply(r.1))
  }

  /** The memory store's answers to a sequence of calls, and the tables it ends with. */
  ghost function RunMemory(hash: Hash, t: Tables, calls: seq<Call>): (Tables, seq<Reply>)
    decreases |calls|
  {
    if calls == [] then (t, [])
    else
      var step := MemoryStep(hash, t, calls[0]);
      var rest := RunMemory(hash, step.0, calls[1..]);
      (rest.0, [step.1] + rest.1)
  }

  ghost function RunSqlite(hash: Hash, t: Tables, calls: seq<Call>): (Tables, seq<Reply>)
    decreases |calls|
  {
    if calls == [] then (t, [])
    else
      var step := SqliteStep(hash, t, calls[0]);
      var rest := RunSqlite(hash, step.0, calls[1..]);
      (rest.0, [step.1] + rest.1)
  }

  /** The call would store a new decision whose digest is already an audit identifier. */
  predicate DigestTaken(hash: Hash, t: Tables, call: Call) {
    match call
    case Activate(c) =>
      KeyOf(c) !in t.requests && c.command.scope !in t.states && NextRecord(hash, t, c).auditId in t.audits
    case RecordControl(state, ack, d) =>
      && state.scope in t.states && t.states[state.scope] == state
      && (state.scope, ack.controlId) !in t.controls && d.digest in t.audits
    case _ => false
  }

  /** No call of the sequence repeats a decision digest, judged on the memory store's tables. */
  ghost predicate DigestsDistinct(hash: Hash, t: Tables, calls: seq<Call>)
    decreases |calls|
  {
    calls == [] || (!DigestTaken(hash, t, calls[0])
                    && DigestsDistinct(hash, MemoryStep(hash, t, calls[0]).0, calls[1..]))
  }

  ghost predicate StatesCoherent(t: Tables) {
    && (forall s <- t.states :: t.states[s].active && t.states[s].scope == s && 0 < t.states[s].epoch <= t.epoch)
    && (forall a, b | a in t.states && b in t.states && t.states[a].epoch == t.states[b].epoch :: a == b)
  }

  ghost predicate RequestsCoherent(t: Tables) {
    forall key <- t.requests ::
      var record := t.requests[key].1;
      record.state.scope in t.states && t.states[record.state.scope] == record.state && record.auditId in t.audits
  }

  ghost predicate AuditsCoherent(t: Tables) {
    && (forall key <- t.controls :: t.controls[key].1 in t.audits)
    && (forall id <- t.audits :: t.audits[id].id == id == t.audits[id].decision.digest)
  }

  /** Tables as the stores build them: every stored stop is active, and epochs name activations uniquely. */
  ghost predicate Coherent(t: Tables) {
    StatesCoherent(t) && RequestsCoherent(t) && AuditsCoherent(t)
  }

  /** What no call ever takes back. */
  ghost predicate Extends(t: Tables, t': Tables) {
    && t.epoch <= t'.epoch
    && (forall s <- t.states :: s in t'.states && t'.states[s] == t.states[s])
    && (forall key <- t.requests :: key in t'.requests && t'.requests[key] == t.requests[key])
    && (forall key <- t.controls :: key in t'.controls && t'.controls[key] == t.controls[key])
    && (forall id <- t.audits :: id in t'.audits && t'.audits[id].decision == t.audits[id].decision
                              && (t.audits[id].delivered ==> t'.audits[id].delivered))
  }

  lemma PutAuditKeeps(t: Tables, d: Decision)
    requires Coherent(t)
    ensures Coherent(PutAudit(t, NewAudit(d))) && Extends(t, PutAudit(t, NewAudit(d)))
  {
  }

  /** The tables after a fresh activation whose audit is already in place. */
  function WithActivation(t: Tables, key: RequestKey, digest: string, record: Record): Tables {
    t.(epoch := t.epoch + 1, states := t.states[record.state.scope := record.state],
       requests := t.requests[key := (digest, record)])
  }

  ghost predicate Fresh(t: Tables, key: RequestKey, record: Record) {
    && key !in t.requests && record.state.scope !in t.states && record.auditId in t.audits
    && record.state.active && record.state.epoch == t.epoch + 1
  }

  lemma ActivationKeepsStates(t: Tables, key: RequestKey, digest: string, record: Record)
    requires StatesCoherent(t) && Fresh(t, key, record)
    ensures StatesCoherent(WithActivation(t, key, digest, record))
  {
  }

  lemma ActivationKeepsRequests(t: Tables, key: RequestKey, digest: string, record: Record)
    requires RequestsCoherent(t) && AuditsCoherent(t) && Fresh(t, key, record)
    ensures RequestsCoherent(WithActivation(t, key, digest, record))
            && AuditsCoherent(WithActivation(t, key, digest, record))
  {
  }

  lemma ActivationExtends(t: Tables, key: RequestKey, digest: string, record: Record)
    requires Fresh(t, key, record)
    ensures Extends(t, WithActivation(t, key, digest, record))
  {
  }

  lemma InsertControl(t: Tables, key: (Scope, string), ack: Acknowledgement, id: string)
    requires Coherent(t) && key !in t.controls && id in t.audits
    ensures var next := t.(controls := t.controls[key := (ack, id)]);
            Coherent(next) && Extends(t, next)
  {
    var next := t.(controls := t.controls[key := (ack, id)]);
    assert StatesCoherent(next) && RequestsCoherent(next);
  }

  lemma ActivationKeeps(t: Tables, key: RequestKey, digest: string, record: Record)
    requires Coherent(t) && Fresh(t, key, record)
    ensures Coherent(WithActivation(t, key, digest, record)) && Extends(t, WithActivation(t, key, digest, record))
  {
    ActivationKeepsStates(t, key, digest, record);
    ActivationKeepsRequests(t, key, digest, record);
    ActivationExtends(t, key, digest, record);
  }

  /** Putting the audit first or last gives the same tables. */
  lemma ActivateShape(hash: Hash, t: Tables, c: Candidate)
    requires StatesCoherent(t) && MemoryActivate(hash, t, c).1.New?
    ensures var record := NextRecord(hash, t, c);
            var mid := PutAudit(t, NewAudit(record.decision));
            Fresh(mid, KeyOf(c), record)
            && MemoryActivate(hash, t, c).0 == WithActivation(mid, KeyOf(c), c.requestDigest, record)
  {
  }

  lemma ActivateKeeps(hash: Hash, t: Tables, c: Candidate)
    requires Coherent(t)
    ensures Coherent(MemoryActivate(hash, t, c).0) && Extends(t, MemoryActivate(hash, t, c).0)
  {
    if MemoryActivate(hash, t, c).1.New? {
      var record := NextRecord(hash, t, c);
      var mid := PutAudit(t, NewAudit(record.decision));
      var next := MemoryActivate(hash, t, c).0;
      PutAuditKeeps(t, record.decision);
      ActivateShape(hash, t, c);
      ActivationKeeps(mid, KeyOf(c), c.requestDigest, record);
      ExtendsTransitive(t, mid, next);
    }
  }

  lemma RecordKeeps(t: Tables, state: State, ack: Acknowledgement, d: Decision)
    requires Coherent(t)
    ensures Coherent(MemoryRecord(t, state, ack, d).0) && Extends(t, MemoryRecord(t, state, ack, d).0)
  {
    if MemoryRecord(t, state, ack, d).1.ControlNew? {
      var mid := PutAudit(t, NewAudit(d));
      PutAuditKeeps(t, d);
      InsertControl(mid, (state.scope, ack.controlId), ack, d.digest);
      ExtendsTransitive(t, mid, MemoryRecord(t, state, ack, d).0);
    }
  }

  lemma MemoryStepKeeps(hash: Hash, t: Tables, call: Call)
    requires Coherent(t)
    ensures Coherent(MemoryStep(hash, t, call).0) && Extends(t, MemoryStep(hash, t, call).0)
  {
    match call
    case Activate(c) => ActivateKeeps(hash, t, c);
    case Effective(c) =>
    case Reserve(d) => PutAuditKeeps(t, d);
    case RecordControl(state, ack, d) => RecordKeeps(t, state, ack, d);
    case Pending(limit) =>
    case Mark(id) => MarkKeeps(t, id);
  }

  lemma MarkKeeps(t: Tables, id: string)
    requires Coherent(t)
    ensures Coherent(MarkDelivered(t, id).0) && Extends(t, MarkDelivered(t, id).0)
  {
  }

  lemma SqliteStepKeeps(hash: Hash, t: Tables, call: Call)
    requires Coherent(t)
    ensures Coherent(SqliteStep(hash, t, call).0) && Extends(t, SqliteStep(hash, t, call).0)
  {
    if !DigestTaken(hash, t, call) {
      StepsAgree(hash, t, call);
      MemoryStepKeeps(hash, t, call);
    }
  }

  /** One call: the stores answer alike exactly when the call does not reuse a digest. */
  lemma StepsAgree(hash: Hash, t: Tables, call: Call)
    requires Coherent(t)
    ensures SqliteStep(hash, t, call).1 == MemoryStep(hash, t, call).1 <==> !DigestTaken(hash, t, call)
    ensures !DigestTaken(hash, t, call) ==> SqliteStep(hash, t, call) == MemoryStep(hash, t, call)
    ensures DigestTaken(hash, t, call) ==> SqliteStep(hash, t, call).0 == t
  {
    if call.Pending? {
      PendingAgrees(t, call.limit);
    }
  }

  /** The durable store gives the memory store's answers to a sequence of calls exactly when no digest repeats. */
  lemma {:induction false} StoresAgree(hash: Hash, t: Tables, calls: seq<Call>)
    requires Coherent(t)
    ensures RunSqlite(hash, t, calls).1 == RunMemory(hash, t, calls).1 <==> DigestsDistinct(hash, t, calls)
    ensures DigestsDistinct(hash, t, calls) ==> RunSqlite(hash, t, calls) == RunMemory(hash, t, calls)
    decreases |calls|
  {
    if calls != [] {
      StepsAgree(hash, t, calls[0]);
      assert RunSqlite(hash, t, calls).1[0] == SqliteStep(hash, t, calls[0]).1;
      assert RunMemory(hash, t, calls).1[0] == MemoryStep(hash, t, calls[0]).1;
      if !DigestTaken(hash, t, calls[0]) {
        MemoryStepKeeps(hash, t, calls[0]);
        StoresAgree(hash, MemoryStep(hash, t, calls[0]).0, calls[1..]);
        assert RunSqlite(hash, t, calls).1[1..] == RunSqlite(hash, MemoryStep(hash, t, calls[0]).0, calls[1..]).1;
        assert RunMemory(hash, t, calls).1[1..] == RunMemory(hash, MemoryStep(hash, t, calls[0]).0, calls[1..]).1;
      }
    }
  }

  /** A repeated digest does occur: a reserved decision can carry the digest the next activation produces. */
  lemma ReservedDigestBlocksDurableActivation(hash: Hash, c: Candidate) returns (d: Decision)
    ensures RunSqlite(hash, EMPTY, [Reserve(d), Activate(c)]).1 != RunMemory(hash, EMPTY, [Reserve(d), Activate(c)]).1
  {
    d := Decide(hash, Activation(NextState(EMPTY, c)));
    var calls := [Reserve(d), Activate(c)];
    assert calls[1..] == [Activate(c)];
    assert DigestTaken(hash, PutAudit(EMPTY, NewAudit(d)), calls[1..][0]);
    StoresAgree(hash, EMPTY, calls);
  }

  lemma ExtendsTransitive(a: Tables, b: Tables, c: Tables)
    requires Extends(a, b) && Extends(b, c)
    ensures Extends(a, c)
  {
  }

  lemma {:induction false} MemoryRunKeeps(hash: Hash, t: Tables, calls: seq<Call>)
    requires Coherent(t)
    ensures Coherent(RunMemory(hash, t, calls).0) && Extends(t, RunMemory(hash, t, calls).0)
    decreases |calls|
  {
    if calls != [] {
      var next := MemoryStep(hash, t, calls[0]).0;
      MemoryStepKeeps(hash, t, calls[0]);
      MemoryRunKeeps(hash, next, calls[1..]);
      ExtendsTransitive(t, next, RunMemory(hash, t, calls).0);
    }
  }

  lemma {:induction false} SqliteRunKeeps(hash: Hash, t: Tables, calls: seq<Call>)
    requires Coherent(t)
    ensures Coherent(RunSqlite(hash, t, calls).0) && Extends(t, RunSqlite(hash, t, calls).0)
    decreases |calls|
  {
    if calls != [] {
      var next := SqliteStep(hash, t, calls[0]).0;
      SqliteStepKeeps(hash, t, calls[0]);
      SqliteRunKeeps(hash, next, calls[1..]);
      ExtendsTransitive(t, next, RunSqlite(hash, t, calls).0);
    }
  }

  /** The guard's answer is the scope test that the containment proofs use. */
  lemma EffectiveIsStopped(t: Tables, c: CaseRef)
    requires Coherent(t)
    ensures MemoryEffective(t, c).Some? <==> Stopped(t.states.Keys, c)
    ensures SqliteEffective(t, c) == MemoryEffective(t, c)
  {
  }

  /** A stopped case stays stopped: whatever is called later, in either store. */
  lemma StoppedForever(hash: Hash, t: Tables, calls: seq<Call>, c: CaseRef)
    requires Coherent(t) && MemoryEffective(t, c).Some?
    ensures MemoryEffective(RunMemory(hash, t, calls).0, c).Some?
    ensures SqliteEffective(RunSqlite(hash, t, calls).0, c).Some?
  {
    MemoryRunKeeps(hash, t, calls);
    SqliteRunKeeps(hash, t, calls);
    EffectiveIsStopped(t, c);
    EffectiveIsStopped(RunMemory(hash, t, calls).0, c);
    EffectiveIsStopped(RunSqlite(hash, t, calls).0, c);
  }

  /** The reply to an activation that stored something new. */
  predicate IsNew(r: Reply) {
    r.ActivateReply? && r.activated.New?
  }

  function EpochOf(r: Reply): nat
    requires IsNew(r)
  {
    r.activated.record.state.epoch
  }

  lemma MemoryEpochStep(hash: Hash, t: Tables, call: Call)
    ensures var step := MemoryStep(hash, t, call);
            t.epoch <= step.0.epoch && (IsNew(step.1) ==> t.epoch < EpochOf(step.1) == step.0.epoch)
  {
  }

  lemma SqliteEpochStep(hash: Hash, t: Tables, call: Call)
    ensures var step := SqliteStep(hash, t, call);
            t.epoch <= step.0.epoch && (IsNew(step.1) ==> t.epoch < EpochOf(step.1) == step.0.epoch)
  {
  }

  lemma {:induction false} MemoryEpochsAbove(hash: Hash, t: Tables, calls: seq<Call>, j: nat)
    requires j < |calls|
    ensures |RunMemory(hash, t, calls).1| == |calls|
    ensures IsNew(RunMemory(hash, t, calls).1[j]) ==> t.epoch < EpochOf(RunMemory(hash, t, calls).1[j])
    decreases |calls|
  {
    MemoryEpochStep(hash, t, calls[0]);
    var next := MemoryStep(hash, t, calls[0]).0;
    MemoryLength(hash, next, calls[1..]);
    if j > 0 {
      MemoryEpochsAbove(hash, next, calls[1..], j - 1);
    }
  }

  lemma {:induction false} MemoryLength(hash: Hash, t: Tables, calls: seq<Call>)
    ensures |RunMemory(hash, t, calls).1| == |calls|
    decreases |calls|
  {
    if calls != [] {
      MemoryLength(hash, MemoryStep(hash, t, calls[0]).0, calls[1..]);
    }
  }

  lemma {:induction false} SqliteLength(hash: Hash, t: Tables, calls: seq<Call>)
    ensures |RunSqlite(hash, t, calls).1| == |calls|
    decreases |calls|
  {
    if calls != [] {
      SqliteLength(hash, SqliteStep(hash, t, calls[0]).0, calls[1..]);
    }
  }

  lemma {:induction false} SqliteEpochsAbove(hash: Hash, t: Tables, calls: seq<Call>, j: nat)
    requires j < |calls|
    ensures |RunSqlite(hash, t, calls).1| == |calls|
    ensures IsNew(RunSqlite(hash, t, calls).1[j]) ==> t.epoch < EpochOf(RunSqlite(hash, t, calls).1[j])
    decreases |calls|
  {
    SqliteEpochStep(hash, t, calls[0]);
    var next := SqliteStep(hash, t, calls[0]).0;
    SqliteLength(hash, next, calls[1..]);
    if j > 0 {
      SqliteEpochsAbove(hash, next, calls[1..], j - 1);
    }
  }

  /** Over any sequence of calls the memory store's new activations get strictly rising epochs. */
  lemma {:induction false} MemoryEpochsIncrease(hash: Hash, t: Tables, calls: seq<Call>, i: nat, j: nat)
    requires i < j < |calls|
    ensures |RunMemory(hash, t, calls).1| == |calls|
    ensures var replies := RunMemory(hash, t, calls).1;
            IsNew(replies[i]) && IsNew(replies[j]) ==> EpochOf(replies[i]) < EpochOf(replies[j])
    decreases |calls|
  {
    MemoryLength(hash, t, calls);
    MemoryEpochStep(hash, t, calls[0]);
    var next := MemoryStep(hash, t, calls[0]).0;
    if i == 0 {
      MemoryEpochsAbove(hash, next, calls[1..], j - 1);
    } else {
      MemoryEpochsIncrease(hash, next, calls[1..], i - 1, j - 1);
    }
  }

  /** And so do the durable store's. */
  lemma {:induction false} SqliteEpochsIncrease(hash: Hash, t: Tables, calls: seq<Call>, i: nat, j: nat)
    requires i < j < |calls|
    ensures |RunSqlite(hash, t, calls).1| == |calls|
    ensures var replies := RunSqlite(hash, t, calls).1;
            IsNew(replies[i]) && IsNew(replies[j]) ==> EpochOf(replies[i]) < EpochOf(replies[j])
    decreases |calls|
  {
    SqliteLength(hash, t, calls);
    SqliteEpochStep(hash, t, calls[0]);
    var next := SqliteStep(hash, t, calls[0]).0;
    if i == 0 {
      SqliteEpochsAbove(hash, next, calls[1..], j - 1);
    } else {
      SqliteEpochsIncrease(hash, next, calls[1..], i - 1, j - 1);
    }
  }

  /** Whatever happens in between, a replayed activation returns the record first stored; a changed one conflicts. */
  lemma ReplayReturnsOriginal(hash: Hash, t: Tables, c: Candidate, calls: seq<Call>, again: Candidate)
    requires Coherent(t) && KeyOf(again) == KeyOf(c)
    ensures var first := SqliteActivate(hash, t, c);
            var later := RunSqlite(hash, first.0, calls).0;
            first.1.New? ==>
              SqliteActivate(hash, later, again) ==
                (later, if again.requestDigest == c.requestDigest then Replay(first.1.record) else Conflict)
    ensures var first := MemoryActivate(hash, t, c);
            var later := RunMemory(hash, first.0, calls).0;
            first.1.New? ==>
              MemoryActivate(hash, later, again) ==
                (later, if again.requestDigest == c.requestDigest then Replay(first.1.record) else Conflict)
  {
    SqliteReplays(hash, t, c, calls, again);
    MemoryReplays(hash, t, c, calls, again);
  }

  lemma SqliteReplays(hash: Hash, t: Tables, c: Candidate, calls: seq<Call>, again: Candidate)
    requires Coherent(t) && KeyOf(again) == KeyOf(c)
    ensures var first := SqliteActivate(hash, t, c);
            var later := RunSqlite(hash, first.0, calls).0;
            first.1.New? ==>
              SqliteActivate(hash, later, again) ==
                (later, if again.requestDigest == c.requestDigest then Replay(first.1.record) else Conflict)
  {
    var first := SqliteActivate(hash, t, c);
    if first.1.New? {
      assert first.0 == SqliteStep(hash, t, Activate(c)).0;
      SqliteStepKeeps(hash, t, Activate(c));
      SqliteStores(hash, t, c);
      SqliteRunKeeps(hash, first.0, calls);
      ExtendsRequest(first.0, RunSqlite(hash, first.0, calls).0, KeyOf(c));
      ReplayOf(hash, RunSqlite(hash, first.0, calls).0, c, again, (c.requestDigest, first.1.record));
    }
  }

  lemma ExtendsRequest(t: Tables, t': Tables, key: RequestKey)
    requires Extends(t, t') && key in t.requests
    ensures key in t'.requests && t'.requests[key] == t.requests[key]
  {
  }

  /** A new activation is found under its request key afterwards. */
  lemma MemoryStores(hash: Hash, t: Tables, c: Candidate)
    ensures var first := MemoryActivate(hash, t, c);
            first.1.New? ==>
              KeyOf(c) in first.0.requests && first.0.requests[KeyOf(c)] == (c.requestDigest, first.1.record)
  {
  }

  lemma SqliteStores(hash: Hash, t: Tables, c: Candidate)
    ensures var first := SqliteActivate(hash, t, c);
            first.1.New? ==>
              KeyOf(c) in first.0.requests && first.0.requests[KeyOf(c)] == (c.requestDigest, first.1.record)
  {
  }

  lemma MemoryReplays(hash: Hash, t: Tables, c: Candidate, calls: seq<Call>, again: Candidate)
    requires Coherent(t) && KeyOf(again) == KeyOf(c)
    ensures var first := MemoryActivate(hash, t, c);
            var later := RunMemory(hash, first.0, calls).0;
            first.1.New? ==>
              MemoryActivate(hash, later, again) ==
                (later, if again.requestDigest == c.requestDigest then Replay(first.1.record) else Conflict)
  {
    var first := MemoryActivate(hash, t, c);
    if first.1.New? {
      ActivateKeeps(hash, t, c);
      MemoryStores(hash, t, c);
      MemoryRunKeeps(hash, first.0, calls);
      ExtendsRequest(first.0, RunMemory(hash, first.0, calls).0, KeyOf(c));
      ReplayOf(hash, RunMemory(hash, first.0, calls).0, c, again, (c.requestDigest, first.1.record));
    }
  }

  lemma ReplayOf(hash: Hash, t: Tables, c: Candidate, again: Candidate, stored: (string, Record))
    requires KeyOf(again) == KeyOf(c) && KeyOf(c) in t.requests && t.requests[KeyOf(c)] == stored
    ensures SqliteActivate(hash, t, again)
            == (t, if again.requestDigest == stored.0 then Replay(stored.1) else Conflict)
    ensures MemoryActivate(hash, t, again) == SqliteActivate(hash, t, again)
  {
  }

  // ---------- Failed transactions

  /** A durable call with whether its transaction went through; a failed one reports so and changes nothing. */
  datatype Attempt = Attempt(call: Call, commits: bool)

  ghost function RunAttempts(hash: Hash, t: Tables, attempts: seq<Attempt>): (Tables, seq<Option<Reply>>)
    decreases |attempts|
  {
    if attempts == [] then (t, [])
    else if !attempts[0].commits then
      var rest := RunAttempts(hash, t, attempts[1..]);
      (rest.0, [None] + rest.1)
    else
      var step := SqliteStep(hash, t, attempts[0].call);
      var rest := RunAttempts(hash, step.0, attempts[1..]);
      (rest.0, [Some(step.1)] + rest.1)
  }

  /** The calls whose transactions went through, and the replies that were given. */
  function Committed(attempts: seq<Attempt>): seq<Call> {
    if attempts == [] then []
    else (if attempts[0].commits then [attempts[0].call] else []) + Committed(attempts[1..])
  }

  function Given(replies: seq<Option<Reply>>): seq<Reply> {
    if replies == [] then []
    else (if replies[0].Some? then [replies[0].value] else []) + Given(replies[1..])
  }

  /** Failed transactions leave no trace: the rest of the run is the run of the committed calls alone. */
  lemma {:induction false} FailuresLeaveNoTrace(hash: Hash, t: Tables, attempts: seq<Attempt>)
    ensures RunAttempts(hash, t, attempts).0 == RunSqlite(hash, t, Committed(attempts)).0
    ensures Given(RunAttempts(hash, t, attempts).1) == RunSqlite(hash, t, Committed(attempts)).1
    decreases |attempts|
  {
    if attempts != [] {
      var rest := Committed(attempts[1..]);
      if attempts[0].commits {
        var step := SqliteStep(hash, t, attempts[0].call);
        var later := RunAttempts(hash, step.0, attempts[1..]);
        FailuresLeaveNoTrace(hash, step.0, attempts[1..]);
        assert ([attempts[0].call] + rest)[1..] == rest;
        assert ([Some(step.1)] + later.1)[1..] == later.1;
      } else {
        var later := RunAttempts(hash, t, attempts[1..]);
        FailuresLeaveNoTrace(hash, t, attempts[1..]);
        assert [] + rest == rest && ([None] + later.1)[1..] == later.1;
        assert [] + Given(later.1) == Given(later.1);
      }
    }
  }
}
