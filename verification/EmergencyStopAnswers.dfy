/**
  What either emergency-stop store answers to a call, told on the calls that came before and on their answers.

  The tables are only a cache of that history: each request, stop, acknowledgement and audit in them was put there
  by one earlier call, and every answer can be read off the earlier calls.
 */
module EmergencyStopAnswers {
  import opened EmergencyStopRuns
  import opened EmergencyStopStore
  import opened StopScope
  import opened Wrappers

  ghost function StoreStep(durable: bool, hash: Hash, t: Tables, call: Call): (Tables, Reply) {
    if durable then SqliteStep(hash, t, call) else MemoryStep(hash, t, call)
  }

  /** A run of one of the two stores from its empty tables. */
  datatype Run = Run(durable: bool, hash: Hash, tables: seq<Tables>, calls: seq<Call>, replies: seq<Reply>)

  ghost predicate StepAt(run: Run, i: nat)
    requires i < |run.calls| && |run.replies| == |run.calls| && |run.tables| == |run.calls| + 1
  {
    (run.tables[i + 1], run.replies[i]) == StoreStep(run.durable, run.hash, run.tables[i], run.calls[i])
  }

  ghost predicate IsRun(run: Run) {
    && |run.replies| == |run.calls| && |run.tables| == |run.calls| + 1
    && run.tables[0] == EMPTY
    && forall i | 0 <= i < |run.calls| :: StepAt(run, i)
  }

  lemma {:induction false} TablesCoherent(run: Run, i: nat)
    requires IsRun(run) && i < |run.tables|
    ensures Coherent(run.tables[i])
  {
    if i > 0 {
      TablesCoherent(run, i - 1);
      assert StepAt(run, i - 1);
      MemoryStepKeeps(run.hash, run.tables[i - 1], run.calls[i - 1]);
      SqliteStepKeeps(run.hash, run.tables[i - 1], run.calls[i - 1]);
    }
  }

  /** It is the run of the store's calls, with the answers and the tables that those give. */
  lemma {:induction false} RunOfStore(run: Run, i: nat)
    requires IsRun(run) && i <= |run.calls|
    ensures (if run.durable then RunSqlite(run.hash, run.tables[i], run.calls[i..])
             else RunMemory(run.hash, run.tables[i], run.calls[i..]))
         == (run.tables[|run.calls|], run.replies[i..])
    decreases |run.calls| - i
  {
    if i < |run.calls| {
      assert StepAt(run, i);
      RunOfStore(run, i + 1);
      assert run.calls[i..][1..] == run.calls[i + 1..];
      assert run.replies[i..] == [run.replies[i]] + run.replies[i + 1..];
    } else {
      assert run.calls[i..] == [] && run.replies[i..] == [];
    }
  }

  // ---------- Activations

  /** Call `k`, before `i`, was an activation that took effect. */
  ghost predicate NewAt(run: Run, i: nat, k: nat)
    requires IsRun(run) && i < |run.tables|
  {
    k < i && run.calls[k].Activate? && IsNew(run.replies[k])
  }

  predicate SameRequest(a: Command, b: Command) {
    && a.scope.organization == b.scope.organization && a.scope.tenant == b.scope.tenant
    && a.actor == b.actor && a.idempotencyKey == b.idempotencyKey
  }

  ghost predicate Requested(run: Run, i: nat, k: nat, c: Command)
    requires IsRun(run) && i < |run.tables|
  {
    NewAt(run, i, k) && SameRequest(run.calls[k].candidate.command, c)
  }

  /** Call `k`, before `i`, stopped exactly this scope. */
  ghost predicate StoppedAt(run: Run, i: nat, k: nat, scope: Scope)
    requires IsRun(run) && i < |run.tables|
  {
    NewAt(run, i, k) && run.calls[k].candidate.command.scope == scope
  }

  lemma ActivationStep(durable: bool, hash: Hash, t: Tables, call: Call)
    ensures var (t', reply) := StoreStep(durable, hash, t, call);
            if IsNew(reply) then
              && call.Activate?
              && t'.requests == t.requests[KeyOf(call.candidate) := (call.candidate.requestDigest,
                                                                     reply.activated.record)]
              && t'.states == t.states[call.candidate.command.scope := reply.activated.record.state]
              && t'.epoch == t.epoch + 1
            else t'.requests == t.requests && t'.states == t.states && t'.epoch == t.epoch
  {
  }

  lemma {:induction false} RequestsWereCalls(run: Run, i: nat, c: Candidate)
    requires IsRun(run) && i < |run.tables|
    ensures KeyOf(c) in run.tables[i].requests <==> exists k: nat :: Requested(run, i, k, c.command)
  {
    if i > 0 {
      var p := i - 1;
      RequestsWereCalls(run, p, c);
      assert StepAt(run, i - 1);
      ActivationStep(run.durable, run.hash, run.tables[i - 1], run.calls[i - 1]);
      if k: nat :| Requested(run, p, k, c.command) {
        assert Requested(run, i, k, c.command);
      } else if KeyOf(c) in run.tables[i].requests {
        assert Requested(run, i, i - 1, c.command);
      } else if k: nat :| Requested(run, i, k, c.command) {
        assert Requested(run, p, k, c.command);
      }
    }
  }

  lemma {:induction false} RequestStays(run: Run, i: nat, k: nat, c: Candidate)
    requires IsRun(run) && i < |run.tables| && Requested(run, i, k, c.command)
    ensures KeyOf(c) in run.tables[i].requests
    ensures run.tables[i].requests[KeyOf(c)]
         == (run.calls[k].candidate.requestDigest, run.replies[k].activated.record)
  {
    assert StepAt(run, i - 1);
    ActivationStep(run.durable, run.hash, run.tables[i - 1], run.calls[i - 1]);
    if k < i - 1 {
      assert Requested(run, i - 1, k, c.command);
      RequestStays(run, i - 1, k, c);
      RequestKept(run, i - 1, KeyOf(c));
    }
  }

  lemma RequestKept(run: Run, i: nat, key: RequestKey)
    requires IsRun(run) && i < |run.calls| && key in run.tables[i].requests
    ensures key in run.tables[i + 1].requests && run.tables[i + 1].requests[key] == run.tables[i].requests[key]
  {
    TablesCoherent(run, i);
    assert StepAt(run, i);
    MemoryStepKeeps(run.hash, run.tables[i], run.calls[i]);
    SqliteStepKeeps(run.hash, run.tables[i], run.calls[i]);
  }

  lemma {:induction false} StatesWereCalls(run: Run, i: nat, scope: Scope)
    requires IsRun(run) && i < |run.tables|
    ensures scope in run.tables[i].states <==> exists k: nat :: StoppedAt(run, i, k, scope)
  {
    if i > 0 {
      var p := i - 1;
      StatesWereCalls(run, p, scope);
      assert StepAt(run, i - 1);
      ActivationStep(run.durable, run.hash, run.tables[i - 1], run.calls[i - 1]);
      if k: nat :| StoppedAt(run, p, k, scope) {
        assert StoppedAt(run, i, k, scope);
      } else if scope in run.tables[i].states {
        assert StoppedAt(run, i, i - 1, scope);
      } else if k: nat :| StoppedAt(run, i, k, scope) {
        assert StoppedAt(run, p, k, scope);
      }
    }
  }

  lemma {:induction false} StateStays(run: Run, i: nat, k: nat, scope: Scope)
    requires IsRun(run) && i < |run.tables| && StoppedAt(run, i, k, scope)
    ensures scope in run.tables[i].states && run.tables[i].states[scope] == run.replies[k].activated.record.state
  {
    assert StepAt(run, i - 1);
    ActivationStep(run.durable, run.hash, run.tables[i - 1], run.calls[i - 1]);
    if k < i - 1 {
      assert StoppedAt(run, i - 1, k, scope);
      StateStays(run, i - 1, k, scope);
      StateKept(run, i - 1, scope);
    }
  }

  lemma StateKept(run: Run, i: nat, scope: Scope)
    requires IsRun(run) && i < |run.calls| && scope in run.tables[i].states
    ensures scope in run.tables[i + 1].states && run.tables[i + 1].states[scope] == run.tables[i].states[scope]
  {
    TablesCoherent(run, i);
    assert StepAt(run, i);
    MemoryStepKeeps(run.hash, run.tables[i], run.calls[i]);
    SqliteStepKeeps(run.hash, run.tables[i], run.calls[i]);
  }

  /** The number of activations that took effect. */
  ghost function Activations(replies: seq<Reply>): nat {
    if replies == [] then 0
    else Activations(replies[..|replies| - 1]) + (if IsNew(replies[|replies| - 1]) then 1 else 0)
  }

  lemma {:induction false} EpochCounts(run: Run, i: nat)
    requires IsRun(run) && i < |run.tables|
    ensures run.tables[i].epoch == Activations(run.replies[..i])
  {
    if i > 0 {
      EpochCounts(run, i - 1);
      assert StepAt(run, i - 1);
      ActivationStep(run.durable, run.hash, run.tables[i - 1], run.calls[i - 1]);
      assert run.replies[..i][..i - 1] == run.replies[..i - 1];
    }
  }

  /** The first call of a request key and scope activates, with the next epoch and with the command as it was given. */
  ghost predicate ActivatesNow(run: Run, i: nat, c: Candidate)
    requires IsRun(run) && i < |run.calls|
  {
    && (forall k: nat :: !Requested(run, i, k, c.command))
    && (forall k: nat :: !StoppedAt(run, i, k, c.command.scope))
  }

  /** What a new record says. */
  predicate RecordFor(hash: Hash, c: Candidate, epoch: nat, record: Record) {
    && record.state.scope == c.command.scope && record.state.epoch == epoch && record.state.active
    && record.state.command == c.command && record.state.authority == c.authority
    && record.state.requestDigest == c.requestDigest && record.state.activatedAt == c.activatedAt
    && record.decision.content == Activation(record.state) && record.decision.digest == hash(Activation(record.state))
    && record.auditId == record.decision.digest
  }

  /** An activation is repeated or refused exactly as the earlier activations of its key and of its scope say. */
  lemma ActivateRefusalsExactly(run: Run, i: nat)
    requires IsRun(run) && i < |run.calls| && run.calls[i].Activate?
    ensures var c, reply := run.calls[i].candidate, run.replies[i];
            && reply.ActivateReply?
            && (forall k: nat | Requested(run, i, k, c.command) ::
                  reply.activated == (if run.calls[k].candidate.requestDigest == c.requestDigest
                                      then Replay(run.replies[k].activated.record) else Conflict))
            && (reply.activated.AlreadyActive? <==>
                && (forall k: nat :: !Requested(run, i, k, c.command))
                && (exists k: nat :: StoppedAt(run, i, k, c.command.scope)))
  {
    var c := run.calls[i].candidate;
    assert StepAt(run, i);
    TablesCoherent(run, i);
    RequestsWereCalls(run, i, c);
    StatesWereCalls(run, i, c.command.scope);
    forall k: nat | Requested(run, i, k, c.command)
      ensures run.replies[i].activated == (if run.calls[k].candidate.requestDigest == c.requestDigest
                                           then Replay(run.replies[k].activated.record) else Conflict)
    {
      RequestStays(run, i, k, c);
    }
  }

  /** Every other activation takes effect, in the durable store unless its audit identifier is taken. */
  lemma ActivatesExactly(run: Run, i: nat)
    requires IsRun(run) && i < |run.calls| && run.calls[i].Activate?
    ensures var c, reply := run.calls[i].candidate, run.replies[i];
            var taken := run.durable && NextRecord(run.hash, run.tables[i], c).auditId in run.tables[i].audits;
            && (IsNew(reply) <==> ActivatesNow(run, i, c) && !taken)
            && (reply == ActivateReply(Unavailable) <==> ActivatesNow(run, i, c) && taken)
            && (IsNew(reply) ==>
                RecordFor(run.hash, c, Activations(run.replies[..i]) + 1, reply.activated.record))
  {
    var c := run.calls[i].candidate;
    assert StepAt(run, i);
    TablesCoherent(run, i);
    RequestsWereCalls(run, i, c);
    StatesWereCalls(run, i, c.command.scope);
    EpochCounts(run, i);
  }

  /** The effective stop of a case is the stop of its tenant, and its own only where the tenant has none. */
  lemma EffectiveExactly(run: Run, i: nat, owner: CaseRef)
    requires IsRun(run) && i < |run.tables|
    ensures var t := run.tables[i];
            var answer := if run.durable then SqliteEffective(t, owner) else MemoryEffective(t, owner);
            && (forall k: nat | StoppedAt(run, i, k, Global(owner.organization, owner.tenant)) ::
                  answer == Some(run.replies[k].activated.record.state))
            && ((forall k: nat :: !StoppedAt(run, i, k, Global(owner.organization, owner.tenant))) ==>
                && (forall k: nat | owner.caseId != ""
                                    && StoppedAt(run, i, k, Case(owner.organization, owner.tenant, owner.caseId)) ::
                      answer == Some(run.replies[k].activated.record.state))
                && (answer.Some? ==>
                    owner.caseId != ""
                    && exists k: nat :: StoppedAt(run, i, k, Case(owner.organization, owner.tenant, owner.caseId))))
  {
    TablesCoherent(run, i);
    EffectiveIsStopped(run.tables[i], owner);
    var whole, one := Global(owner.organization, owner.tenant), Case(owner.organization, owner.tenant, owner.caseId);
    StatesWereCalls(run, i, whole);
    StatesWereCalls(run, i, one);
    forall k: nat | StoppedAt(run, i, k, whole)
      ensures run.tables[i].states[whole] == run.replies[k].activated.record.state
    {
      StateStays(run, i, k, whole);
    }
    forall k: nat | StoppedAt(run, i, k, one)
      ensures run.tables[i].states[one] == run.replies[k].activated.record.state
    {
      StateStays(run, i, k, one);
    }
  }

  // ---------- Acknowledgements

  predicate IsRecorded(r: Reply) {
    r.ControlReply? && r.recorded.ControlNew?
  }

  /** Call `k`, before `i`, recorded an acknowledgement of this control for this scope. */
  ghost predicate AcknowledgedAt(run: Run, i: nat, k: nat, scope: Scope, controlId: string)
    requires IsRun(run) && i < |run.tables|
  {
    && k < i && run.calls[k].RecordControl? && IsRecorded(run.replies[k])
    && run.calls[k].state.scope == scope && run.calls[k].ack.controlId == controlId
  }

  lemma ControlStep(durable: bool, hash: Hash, t: Tables, call: Call)
    ensures var (t', reply) := StoreStep(durable, hash, t, call);
            if IsRecorded(reply) then
              && call.RecordControl? && (call.state.scope, call.ack.controlId) !in t.controls
              && t'.controls == t.controls[(call.state.scope, call.ack.controlId) := (call.ack, call.decision.digest)]
            else t'.controls == t.controls
  {
  }

  lemma {:induction false} ControlsWereCalls(run: Run, i: nat, scope: Scope, controlId: string)
    requires IsRun(run) && i < |run.tables|
    ensures (scope, controlId) in run.tables[i].controls <==>
            exists k: nat :: AcknowledgedAt(run, i, k, scope, controlId)
  {
    if i > 0 {
      var p := i - 1;
      ControlsWereCalls(run, p, scope, controlId);
      assert StepAt(run, i - 1);
      ControlStep(run.durable, run.hash, run.tables[i - 1], run.calls[i - 1]);
      if k: nat :| AcknowledgedAt(run, p, k, scope, controlId) {
        assert AcknowledgedAt(run, i, k, scope, controlId);
      } else if (scope, controlId) in run.tables[i].controls {
        assert AcknowledgedAt(run, i, i - 1, scope, controlId);
      } else if k: nat :| AcknowledgedAt(run, i, k, scope, controlId) {
        assert AcknowledgedAt(run, p, k, scope, controlId);
      }
    }
  }

  lemma {:induction false} ControlStays(run: Run, i: nat, k: nat, scope: Scope, controlId: string)
    requires IsRun(run) && i < |run.tables| && AcknowledgedAt(run, i, k, scope, controlId)
    ensures (scope, controlId) in run.tables[i].controls
    ensures run.tables[i].controls[(scope, controlId)] == (run.calls[k].ack, run.calls[k].decision.digest)
  {
    assert StepAt(run, i - 1);
    ControlStep(run.durable, run.hash, run.tables[i - 1], run.calls[i - 1]);
    if k < i - 1 {
      assert AcknowledgedAt(run, i - 1, k, scope, controlId);
      ControlStays(run, i - 1, k, scope, controlId);
    }
  }

  /** An acknowledgement is stale exactly when no activation of the run returned the state it names. */
  lemma StaleExactly(run: Run, i: nat)
    requires IsRun(run) && i < |run.calls| && run.calls[i].RecordControl?
    ensures run.replies[i].ControlReply?
    ensures run.replies[i].recorded.StateStale? <==>
            forall k: nat | NewAt(run, i, k) :: run.replies[k].activated.record.state != run.calls[i].state
  {
    var state := run.calls[i].state;
    assert StepAt(run, i);
    StatesWereCalls(run, i, state.scope);
    forall k: nat | NewAt(run, i, k)
      ensures run.replies[k].activated.record.state == state ==>
              state.scope in run.tables[i].states && run.tables[i].states[state.scope] == state
    {
      assert StepAt(run, k);
      StateStays(run, i, k, run.calls[k].candidate.command.scope);
    }
    if k: nat :| StoppedAt(run, i, k, state.scope) {
      StateStays(run, i, k, state.scope);
    }
  }

  /** A control's first acknowledgement stands: the same again returns its audit, and another one conflicts. */
  lemma AcknowledgedOnce(run: Run, i: nat, k: nat)
    requires IsRun(run) && i < |run.calls| && run.calls[i].RecordControl?
    requires AcknowledgedAt(run, i, k, run.calls[i].state.scope, run.calls[i].ack.controlId)
    requires run.replies[i].ControlReply? && !run.replies[i].recorded.StateStale?
    ensures var id := run.calls[k].decision.digest;
            && id in run.tables[i].audits
            && run.replies[i].recorded == (if run.calls[i].ack == run.calls[k].ack
                                           then ControlReplay(run.tables[i].audits[id]) else ControlConflict)
  {
    assert StepAt(run, i);
    TablesCoherent(run, i);
    ControlStays(run, i, k, run.calls[i].state.scope, run.calls[i].ack.controlId);
  }

  /** And a control not yet acknowledged is recorded, in the durable store unless its audit identifier is taken. */
  lemma AcknowledgedFirst(run: Run, i: nat)
    requires IsRun(run) && i < |run.calls| && run.calls[i].RecordControl?
    requires forall k: nat :: !AcknowledgedAt(run, i, k, run.calls[i].state.scope, run.calls[i].ack.controlId)
    requires run.replies[i].ControlReply? && !run.replies[i].recorded.StateStale?
    ensures run.replies[i].recorded
         == if run.durable && run.calls[i].decision.digest in run.tables[i].audits then ControlUnavailable
            else ControlNew(Audit(run.calls[i].decision.digest, run.calls[i].decision, false))
  {
    assert StepAt(run, i);
    ControlsWereCalls(run, i, run.calls[i].state.scope, run.calls[i].ack.controlId);
  }

  // ---------- Audits

  /** The decision a call puts among the audits. */
  function Audits(call: Call, reply: Reply): Option<Decision> {
    match call
    case Activate(_) => if IsNew(reply) then Some(reply.activated.record.decision) else None
    case Reserve(d) => Some(d)
    case RecordControl(_, _, d) => if IsRecorded(reply) then Some(d) else None
    case _ => None
  }

  /** Each call adds its own decision, undelivered, unless its identifier is taken, and only a mark changes one. */
  lemma AuditsChangeExactly(run: Run, i: nat, id: string)
    requires IsRun(run) && i < |run.calls|
    ensures var audits, audits' := run.tables[i].audits, run.tables[i + 1].audits;
            var d := Audits(run.calls[i], run.replies[i]);
            if id in audits then
              id in audits' && audits'[id] == audits[id].(delivered := audits[id].delivered || run.calls[i] == Mark(id))
            else
              && (id in audits' <==> d.Some? && d.value.digest == id)
              && (id in audits' ==> audits'[id] == Audit(id, d.value, false))
  {
    assert StepAt(run, i);
    AuditStep(run.durable, run.hash, run.tables[i], run.calls[i]);
  }

  lemma AuditStep(durable: bool, hash: Hash, t: Tables, call: Call)
    ensures var (t', reply) := StoreStep(durable, hash, t, call);
            var d := Audits(call, reply);
            t'.audits == if d.Some? && d.value.digest !in t.audits
                         then t.audits[d.value.digest := Audit(d.value.digest, d.value, false)]
                         else if call.Mark? && call.id in t.audits
                         then t.audits[call.id := t.audits[call.id].(delivered := true)]
                         else t.audits
  {
  }

  /** A mark finds exactly the audits that some earlier call put. */
  lemma MarkFindsExactly(run: Run, i: nat)
    requires IsRun(run) && i < |run.calls| && run.calls[i].Mark?
    ensures run.replies[i] == MarkReply(run.calls[i].id in run.tables[i].audits)
  {
    assert StepAt(run, i);
  }
}
