/**
  Broker-owned network leases under an emergency stop.

  `Acquire` checks the stop store, obtains a lease from the inner broker, registers it under the lock
  and checks again. A lease is closed at most once, whoever asks first: its owner, a failed `Acquire`,
  or the egress control. The inner cleanup runs before the lease leaves the table.
 */
module NetworkContainment {
  import opened StopScope

  /** How far `Acquire` got with a lease it obtained from the inner broker. */
  datatype Stage = Unusable | Obtained | Conflicting | Registered | HandedOut | Rejected

  /** The run-once close: cleanup running, cleanup returned, deleted from the table, done channel closed. */
  datatype Phase = Open | Running | Returned | Deleted | Closed

  datatype Lease = Lease(id: string, owner: CaseRef, stage: Stage, phase: Phase, cleanups: nat, failed: bool)

  datatype RunKey = RunKey(scope: Scope, epoch: nat)

  /**
    `armed` records that the stop was already stored when the snapshot was taken. A failed run no longer
    waits, but the goroutines it started go on closing its leases.
   */
  datatype Run =
    | Opened
    | Closing(armed: bool, snapshot: set<nat>, pending: set<nat>)
    | Succeeded(armed: bool, snapshot: set<nat>)
    | Failed(snapshot: set<nat>)

  datatype Table = Table(leases: seq<Lease>, active: map<string, nat>, runs: map<RunKey, Run>)

  predicate Listed(l: Lease) {
    (l.stage.Registered? || l.stage.HandedOut? || l.stage.Rejected?)
    && (l.phase.Open? || l.phase.Running? || l.phase.Returned?)
  }

  /** The table lists exactly the registered leases that have not been deleted from it. */
  ghost predicate WellFormed(t: Table) {
    && (forall id <- t.active ::
          t.active[id] < |t.leases| && t.leases[t.active[id]].id == id && Listed(t.leases[t.active[id]]))
    && (forall l | 0 <= l < |t.leases| && Listed(t.leases[l]) ::
          t.leases[l].id in t.active && t.active[t.leases[l].id] == l)
  }

  // ---------- The critical sections, as functions of the table

  function Register(t: Table, l: nat): Table
    requires l < |t.leases|
  {
    var lease := t.leases[l];
    if lease.id in t.active then t.(leases := t.leases[l := lease.(stage := Conflicting)])
    else t.(leases := t.leases[l := lease.(stage := Registered)], active := t.active[lease.id := l])
  }

  function Delete(t: Table, l: nat): Table
    requires l < |t.leases|
  {
    var lease := t.leases[l];
    t.(leases := t.leases[l := lease.(phase := Deleted)],
       active := if lease.id in t.active && t.active[lease.id] == l then t.active - {lease.id} else t.active)
  }

  function Begin(t: Table, l: nat): Table
    requires l < |t.leases|
  {
    if t.leases[l].phase.Open? then
      t.(leases := t.leases[l := t.leases[l].(phase := Running, cleanups := t.leases[l].cleanups + 1)])
    else t
  }

  function Covered(leases: seq<Lease>, scope: Scope): set<nat> {
    set l: nat | l < |leases| && Listed(leases[l]) && Covers(scope, leases[l].owner)
  }

  /** The containment broker object. Each method is one section under its lock, or one run-once entry. */
  class ContainmentBroker {
    var leases: seq<Lease>
    var active: map<string, nat>
    var runs: map<RunKey, Run>

    ghost function View(): Table
      reads this
    {
      Table(leases, active, runs)
    }

    constructor ()
      ensures View() == Table([], map[], map[]) && WellFormed(View())
    {
      leases, active, runs := [], map[], map[];
    }

    method RegisterLease(l: nat) returns (ok: bool)
      requires WellFormed(View()) && l < |leases| && leases[l].stage.Obtained? && leases[l].phase.Open?
      modifies this
      ensures View() == Register(old(View()), l) && WellFormed(View())
      ensures ok <==> leases[l].stage.Registered?
    {
      var lease := leases[l];
      if lease.id in active {
        leases := leases[l := lease.(stage := Conflicting)];
        return false;
      }
      leases := leases[l := lease.(stage := Registered)];
      active := active[lease.id := l];
      ok := true;
    }

    /** The run-once gate of `close`: only the first caller runs the cleanup. */
    method EnterClose(l: nat) returns (first: bool)
      requires WellFormed(View()) && l < |leases|
      modifies this
      ensures View() == Begin(old(View()), l) && WellFormed(View())
      ensures first <==> old(leases)[l].phase.Open?
    {
      first := leases[l].phase.Open?;
      if first {
        leases := leases[l := leases[l].(phase := Running, cleanups := leases[l].cleanups + 1)];
      }
    }

    /** The deferred delete after the inner cleanup; another lease with the same identifier is left alone. */
    method DeleteLease(l: nat)
      requires WellFormed(View()) && l < |leases| && leases[l].phase.Returned?
      modifies this
      ensures View() == Delete(old(View()), l) && WellFormed(View())
    {
      var id := leases[l].id;
      leases := leases[l := leases[l].(phase := Deleted)];
      if id in active && active[id] == l {
        active := active - {id};
      }
    }

    /** The loop of `applyOnce` under the lock. */
    method TakeSnapshot(key: RunKey, armed: bool) returns (chosen: set<nat>)
      requires WellFormed(View())
      modifies this`runs
      ensures chosen == Covered(leases, key.scope)
      ensures runs == old(runs)[key := Closing(armed, chosen, chosen)]
    {
      chosen := {};
      var todo := active.Keys;
      while todo != {}
        invariant todo <= active.Keys
        invariant forall l: nat :: l in chosen <==> l in Covered(leases, key.scope) && leases[l].id !in todo
        decreases |todo|
      {
        var id :| id in todo;
        if Covers(key.scope, leases[active[id]].owner) {
          chosen := chosen + {active[id]};
        }
        todo := todo - {id};
      }
      assert chosen == Covered(leases, key.scope);
      runs := runs[key := Closing(armed, chosen, chosen)];
    }
  }

  // ---------- The whole system

  /** `callers` holds the callers of `Acquire` whose first store read found no stop. */
  datatype System = System(stops: set<Scope>, callers: map<nat, CaseRef>, table: Table)

  datatype Event =
    | Activate(scope: Scope)
    | FirstCheck(caller: nat, owner: CaseRef)
    | InnerAcquire(caller: nat, id: string, hasCleanup: bool)
    | RegisterIt(lease: nat)
    | SecondCheck(lease: nat)
    | SecondCheckFails(lease: nat)
    | StartClose(lease: nat)
    | CleanupReturns(lease: nat, failed: bool)
    | DeleteIt(lease: nat)
    | CloseDone(lease: nat)
    | StartApply(key: RunKey)
    | SnapshotApply(key: RunKey)
    | SeeClosed(key: RunKey, lease: nat)
    | FinishApply(key: RunKey)
    | AbortApply(key: RunKey)

  /** The parties entitled to close a lease: its owner, the failing `Acquire`, or a run of the control. */
  ghost predicate MayClose(t: Table, l: nat)
    requires l < |t.leases|
  {
    || t.leases[l].stage.HandedOut? || t.leases[l].stage.Conflicting? || t.leases[l].stage.Rejected?
    || exists key <- t.runs :: (t.runs[key].Closing? || t.runs[key].Failed?) && l in t.runs[key].snapshot
  }

  ghost predicate Enabled(s: System, ev: Event) {
    var t := s.table;
    match ev
    case Activate(scope) => ValidScope(scope)
    case FirstCheck(caller, owner) => caller !in s.callers && !Stopped(s.stops, owner)
    case InnerAcquire(caller, id, hasCleanup) => caller in s.callers
    case RegisterIt(l) => l < |t.leases| && t.leases[l].stage.Obtained?
    case SecondCheck(l) => l < |t.leases| && t.leases[l].stage.Registered? && !Stopped(s.stops, t.leases[l].owner)
    case SecondCheckFails(l) => l < |t.leases| && t.leases[l].stage.Registered?
    case StartClose(l) => l < |t.leases| && MayClose(t, l)
    case CleanupReturns(l, failed) => l < |t.leases| && t.leases[l].phase.Running?
    case DeleteIt(l) => l < |t.leases| && t.leases[l].phase.Returned?
    case CloseDone(l) => l < |t.leases| && t.leases[l].phase.Deleted?
    case StartApply(key) => key !in t.runs
    case SnapshotApply(key) => key in t.runs && t.runs[key].Opened?
    case SeeClosed(key, l) => key in t.runs && t.runs[key].Closing? && l in t.runs[key].pending && l < |t.leases|
      && t.leases[l].phase.Closed?
    case FinishApply(key) => key in t.runs && t.runs[key].Closing? && t.runs[key].pending == {}
    case AbortApply(key) => key in t.runs && t.runs[key].Closing?
  }

  ghost function Next(s: System, ev: Event): System
    requires Enabled(s, ev)
  {
    var t := s.table;
    match ev
    case Activate(scope) => s.(stops := s.stops + {scope})
    case FirstCheck(caller, owner) => s.(callers := s.callers[caller := owner])
    case InnerAcquire(caller, id, hasCleanup) =>
      // A lease without an identifier or a cleanup is refused, and its cleanup, if any, runs at once.
      var lease := if id == "" || !hasCleanup
                   then Lease(id, s.callers[caller], Unusable, Closed, if hasCleanup then 1 else 0, false)
                   else Lease(id, s.callers[caller], Obtained, Open, 0, false);
      s.(callers := s.callers - {caller}, table := t.(leases := t.leases + [lease]))
    case RegisterIt(l) => s.(table := Register(t, l))
    case SecondCheck(l) => s.(table := t.(leases := t.leases[l := t.leases[l].(stage := HandedOut)]))
    case SecondCheckFails(l) => s.(table := t.(leases := t.leases[l := t.leases[l].(stage := Rejected)]))
    case StartClose(l) => s.(table := Begin(t, l))
    case CleanupReturns(l, failed) =>
      s.(table := t.(leases := t.leases[l := t.leases[l].(phase := Returned, failed := failed)]))
    case DeleteIt(l) => s.(table := Delete(t, l))
    case CloseDone(l) => s.(table := t.(leases := t.leases[l := t.leases[l].(phase := Closed)]))
    case StartApply(key) => s.(table := t.(runs := t.runs[key := Opened]))
    case SnapshotApply(key) =>
      var chosen := Covered(t.leases, key.scope);
      s.(table := t.(runs := t.runs[key := Closing(key.scope in s.stops, chosen, chosen)]))
    case SeeClosed(key, l) =>
      // A failed cleanup ends the run with an error.
      s.(table := t.(runs := t.runs[key := if t.leases[l].failed then Failed(t.runs[key].snapshot)
                                           else t.runs[key].(pending := t.runs[key].pending - {l})]))
    case FinishApply(key) =>
      s.(table := t.(runs := t.runs[key := Succeeded(t.runs[key].armed, t.runs[key].snapshot)]))
    case AbortApply(key) => s.(table := t.(runs := t.runs[key := Failed(t.runs[key].snapshot)]))
  }

  /** Step `i` is that of its enabled event. */
  ghost predicate StepAt(states: seq<System>, events: seq<Event>, i: nat)
    requires i < |events| && |states| == |events| + 1
  {
    Enabled(states[i], events[i]) && states[i + 1] == Next(states[i], events[i])
  }

  ghost predicate IsRun(states: seq<System>, events: seq<Event>) {
    && |states| == |events| + 1
    && states[0] == System({}, map[], Table([], map[], map[]))
    && forall i | 0 <= i < |events| :: StepAt(states, events, i)
  }

  predicate HandedOutIn(t: Table, scope: Scope, l: nat) {
    l < |t.leases| && t.leases[l].stage.HandedOut? && Covers(scope, t.leases[l].owner)
  }

  /** The inner cleanup has been called and has come back. */
  predicate CleanedUp(l: Lease) {
    l.phase.Returned? || l.phase.Deleted? || l.phase.Closed?
  }

  /** The run-once gate: the cleanup count is one exactly when the lease has left the open phase. */
  predicate Counted(l: Lease) {
    && (!l.stage.Unusable? ==> l.cleanups == (if l.phase.Open? then 0 else 1))
    && (l.stage.Unusable? ==> l.cleanups <= 1 && l.phase.Closed?)
    && (l.stage.Obtained? ==> l.phase.Open?)
  }

  ghost predicate Contains(t: Table, scope: Scope, r: Run) {
    forall l: nat | HandedOutIn(t, scope, l) ::
      t.leases[l].phase.Deleted? || t.leases[l].phase.Closed? || (r.Closing? && l in r.pending)
  }

  /** A run has seen the lease closed, and the cleanup did not fail. */
  predicate Cleaned(r: Run, l: nat) {
    r.Succeeded? || (r.Closing? && l !in r.pending)
  }

  /** Snapshots hold registered leases, and every lease a run no longer waits for was cleaned up without an error. */
  ghost predicate Cleared(t: Table, r: Run) {
    !r.Opened? ==>
      forall l <- r.snapshot ::
        && l < |t.leases| && !t.leases[l].stage.Obtained? && !t.leases[l].stage.Unusable?
        && (Cleaned(r, l) ==> t.leases[l].phase.Closed? && !t.leases[l].failed)
  }

  ghost predicate Armed(r: Run) {
    (r.Closing? || r.Succeeded?) && r.armed
  }

  ghost predicate Inv(s: System) {
    && WellFormed(s.table)
    && (forall l | 0 <= l < |s.table.leases| :: Counted(s.table.leases[l]))
    && (forall scope <- s.stops :: ValidScope(scope))
    && (forall key <- s.table.runs | Armed(s.table.runs[key]) ::
          key.scope in s.stops && Contains(s.table, key.scope, s.table.runs[key]))
    && (forall key <- s.table.runs :: Cleared(s.table, s.table.runs[key]))
  }

  function Progress(p: Phase): nat {
    match p
    case Open => 0
    case Running => 1
    case Returned => 2
    case Deleted => 3
    case Closed => 4
  }

  /** Closing only goes forward, and a lease that was handed out stays so. */
  predicate LeaseGrows(x: Lease, y: Lease) {
    && x.id == y.id && x.owner == y.owner && Progress(x.phase) <= Progress(y.phase)
    && (x.stage.HandedOut? ==> y.stage.HandedOut?)
    && (!x.stage.Obtained? && !x.stage.Unusable? ==> !y.stage.Obtained? && !y.stage.Unusable?)
    && (CleanedUp(x) ==> x.failed == y.failed)
  }

  /** Leases are never forgotten. */
  ghost predicate Grows(t: Table, t': Table) {
    |t.leases| <= |t'.leases| && forall l | 0 <= l < |t.leases| :: LeaseGrows(t.leases[l], t'.leases[l])
  }

  lemma WellFormedPreserved(s: System, ev: Event)
    requires Inv(s) && Enabled(s, ev)
    ensures WellFormed(Next(s, ev).table)
  {
    if ev.RegisterIt? {
      WellFormedByRegister(s, ev);
    } else if ev.InnerAcquire? || ev.DeleteIt? {
      WellFormedByTable(s, ev);
    } else {
      WellFormedByLease(s, ev);
    }
  }

  lemma WellFormedByRegister(s: System, ev: Event)
    requires Inv(s) && Enabled(s, ev) && ev.RegisterIt?
    ensures WellFormed(Next(s, ev).table)
  {
  }

  lemma WellFormedByTable(s: System, ev: Event)
    requires Inv(s) && Enabled(s, ev) && (ev.InnerAcquire? || ev.DeleteIt?)
    ensures WellFormed(Next(s, ev).table)
  {
  }

  lemma WellFormedByLease(s: System, ev: Event)
    requires Inv(s) && Enabled(s, ev) && !ev.InnerAcquire? && !ev.RegisterIt? && !ev.DeleteIt?
    ensures WellFormed(Next(s, ev).table)
  {
  }

  lemma CountedPreserved(s: System, ev: Event, l: nat)
    requires Inv(s) && Enabled(s, ev) && l < |Next(s, ev).table.leases|
    ensures Counted(Next(s, ev).table.leases[l])
  {
    if l < |s.table.leases| {
      assert Counted(s.table.leases[l]);
    }
  }

  /** The events that leave the leases alone. */
  predicate Quiet(ev: Event) {
    || ev.Activate? || ev.FirstCheck? || ev.StartApply? || ev.SnapshotApply? || ev.SeeClosed? || ev.FinishApply?
    || ev.AbortApply?
  }

  lemma QuietKeepsLeases(s: System, ev: Event)
    requires Enabled(s, ev) && Quiet(ev)
    ensures Next(s, ev).table.leases == s.table.leases
  {
  }

  lemma SameLeaseGrows(x: Lease)
    ensures LeaseGrows(x, x)
  {
  }

  lemma LoudGrows(s: System, ev: Event)
    requires Enabled(s, ev) && !Quiet(ev)
    ensures Grows(s.table, Next(s, ev).table)
  {
  }

  lemma StepGrows(s: System, ev: Event)
    requires Enabled(s, ev)
    ensures Grows(s.table, Next(s, ev).table) && s.stops <= Next(s, ev).stops
  {
    if Quiet(ev) {
      QuietKeepsLeases(s, ev);
      forall l | 0 <= l < |s.table.leases| ensures LeaseGrows(s.table.leases[l], s.table.leases[l]) {
        SameLeaseGrows(s.table.leases[l]);
      }
    } else {
      LoudGrows(s, ev);
    }
  }

  /** A lease is handed out only by a second read that finds no stop over it. */
  lemma HandOutNeedsClearStore(s: System, ev: Event, scope: Scope, l: nat)
    requires Enabled(s, ev) && (forall x <- s.stops :: ValidScope(x)) && scope in s.stops
    requires HandedOutIn(Next(s, ev).table, scope, l)
    ensures HandedOutIn(s.table, scope, l)
  {
    if l < |s.table.leases| {
      GuardAgreesWithControls(s.stops, s.table.leases[l].owner);
    }
  }

  lemma GrowsTransitive(t0: Table, t1: Table, t2: Table)
    requires Grows(t0, t1) && Grows(t1, t2)
    ensures Grows(t0, t2)
  {
  }

  lemma ClearedPreserved(s: System, ev: Event, key: RunKey)
    requires Inv(s) && Enabled(s, ev) && key in Next(s, ev).table.runs
    ensures Cleared(Next(s, ev).table, Next(s, ev).table.runs[key])
  {
    StepGrows(s, ev);
    if key in s.table.runs {
      assert Cleared(s.table, s.table.runs[key]);
    }
    if key in s.table.runs && Next(s, ev).table.runs[key] == s.table.runs[key] {
      ClearedGrows(s.table, Next(s, ev).table, s.table.runs[key]);
    } else {
      ClearedByRun(s, ev, key);
    }
  }

  lemma ClearedGrows(t: Table, t': Table, r: Run)
    requires Cleared(t, r) && Grows(t, t')
    ensures Cleared(t', r)
  {
  }

  lemma ClearedByRun(s: System, ev: Event, key: RunKey)
    requires Inv(s) && Enabled(s, ev) && key in Next(s, ev).table.runs
    requires key in s.table.runs ==> Next(s, ev).table.runs[key] != s.table.runs[key]
    ensures Cleared(Next(s, ev).table, Next(s, ev).table.runs[key])
  {
    RunEvents(s, ev, key);
    if ev.SnapshotApply? {
      ClearedBySnapshot(s, key);
    } else if key in s.table.runs {
      assert Cleared(s.table, s.table.runs[key]);
    }
  }

  /** A run is changed by its own events only, and they leave the leases alone. */
  lemma RunEvents(s: System, ev: Event, key: RunKey)
    requires Enabled(s, ev) && key in Next(s, ev).table.runs
    requires key in s.table.runs ==> Next(s, ev).table.runs[key] != s.table.runs[key]
    ensures ev.StartApply? || ev.SnapshotApply? || ev.SeeClosed? || ev.FinishApply? || ev.AbortApply?
    ensures ev.key == key && Next(s, ev).table.leases == s.table.leases
  {
  }

  lemma ClearedBySnapshot(s: System, key: RunKey)
    requires Enabled(s, SnapshotApply(key))
    ensures Cleared(Next(s, SnapshotApply(key)).table, Next(s, SnapshotApply(key)).table.runs[key])
  {
  }

  predicate Waits(r: Run, l: nat) {
    r.Closing? && l in r.pending
  }

  /** A run stops waiting for a lease only when that lease is closed. */
  lemma RunStep(s: System, ev: Event, key: RunKey)
    requires Enabled(s, ev) && key in Next(s, ev).table.runs && Armed(Next(s, ev).table.runs[key])
             && ev != SnapshotApply(key)
    ensures key in s.table.runs && Armed(s.table.runs[key])
    ensures forall l: nat | l < |s.table.leases| && Waits(s.table.runs[key], l) ::
              Waits(Next(s, ev).table.runs[key], l) || s.table.leases[l].phase.Closed?
  {
  }

  lemma SnapshotContains(s: System, key: RunKey)
    requires Inv(s) && Enabled(s, SnapshotApply(key))
    ensures Contains(Next(s, SnapshotApply(key)).table, key.scope, Next(s, SnapshotApply(key)).table.runs[key])
  {
  }

  lemma ContainsPreserved(s: System, ev: Event, key: RunKey)
    requires Inv(s) && Enabled(s, ev) && key in Next(s, ev).table.runs && Armed(Next(s, ev).table.runs[key])
    ensures key.scope in Next(s, ev).stops && Contains(Next(s, ev).table, key.scope, Next(s, ev).table.runs[key])
  {
    if ev == SnapshotApply(key) {
      SnapshotContains(s, key);
    } else {
      RunStep(s, ev, key);
      ContainsKept(s, ev, key);
    }
  }

  lemma ContainsKept(s: System, ev: Event, key: RunKey)
    requires Inv(s) && Enabled(s, ev) && key in Next(s, ev).table.runs && Armed(Next(s, ev).table.runs[key])
    requires key in s.table.runs && Armed(s.table.runs[key])
    requires forall l: nat | l < |s.table.leases| && Waits(s.table.runs[key], l) ::
               Waits(Next(s, ev).table.runs[key], l) || s.table.leases[l].phase.Closed?
    ensures key.scope in Next(s, ev).stops && Contains(Next(s, ev).table, key.scope, Next(s, ev).table.runs[key])
  {
    var s' := Next(s, ev);
    StepGrows(s, ev);
    forall l: nat | HandedOutIn(s'.table, key.scope, l)
      ensures s'.table.leases[l].phase.Deleted? || s'.table.leases[l].phase.Closed? || Waits(s'.table.runs[key], l)
    {
      HandOutNeedsClearStore(s, ev, key.scope, l);
      assert Progress(s.table.leases[l].phase) <= Progress(s'.table.leases[l].phase);
    }
  }

  lemma InvPreserved(s: System, ev: Event)
    requires Inv(s) && Enabled(s, ev)
    ensures Inv(Next(s, ev))
  {
    WellFormedPreserved(s, ev);
    forall l | 0 <= l < |Next(s, ev).table.leases|
      ensures Counted(Next(s, ev).table.leases[l])
    {
      CountedPreserved(s, ev, l);
    }
    forall key <- Next(s, ev).table.runs
      ensures Cleared(Next(s, ev).table, Next(s, ev).table.runs[key])
      ensures Armed(Next(s, ev).table.runs[key]) ==>
                key.scope in Next(s, ev).stops && Contains(Next(s, ev).table, key.scope, Next(s, ev).table.runs[key])
    {
      ClearedPreserved(s, ev, key);
      if Armed(Next(s, ev).table.runs[key]) {
        ContainsPreserved(s, ev, key);
      }
    }
  }

  lemma {:induction false} InvOnRuns(states: seq<System>, events: seq<Event>, i: nat)
    requires IsRun(states, events) && i < |states|
    ensures Inv(states[i])
  {
    if i > 0 {
      InvOnRuns(states, events, i - 1);
      assert StepAt(states, events, i - 1);
      InvPreserved(states[i - 1], events[i - 1]);
    }
  }

  /** In every interleaving the inner cleanup of a lease runs at most once. */
  lemma CleanupAtMostOnce(states: seq<System>, events: seq<Event>, i: nat, l: nat)
    requires IsRun(states, events) && i < |states| && l < |states[i].table.leases|
    ensures states[i].table.leases[l].cleanups <= 1
    ensures CleanedUp(states[i].table.leases[l]) && !states[i].table.leases[l].stage.Unusable? ==>
              states[i].table.leases[l].cleanups == 1
  {
    InvOnRuns(states, events, i);
    assert Counted(states[i].table.leases[l]);
  }

  /** What a stored stop keeps from the moment of state `i` on. */
  lemma {:induction false} NoLateHandOut(states: seq<System>, events: seq<Event>, i: nat, j: nat, scope: Scope, l: nat)
    requires IsRun(states, events) && i <= j < |states|
    requires scope in states[i].stops
    ensures Grows(states[i].table, states[j].table) && scope in states[j].stops
    ensures HandedOutIn(states[j].table, scope, l) ==> HandedOutIn(states[i].table, scope, l)
    decreases j
  {
    if i < j {
      NoLateHandOut(states, events, i, j - 1, scope, l);
      LateStep(states, events, j - 1, scope, l);
      GrowsTransitive(states[i].table, states[j - 1].table, states[j].table);
    }
  }

  lemma LateStep(states: seq<System>, events: seq<Event>, i: nat, scope: Scope, l: nat)
    requires IsRun(states, events) && i < |events| && scope in states[i].stops
    ensures Grows(states[i].table, states[i + 1].table) && scope in states[i + 1].stops
    ensures HandedOutIn(states[i + 1].table, scope, l) ==> HandedOutIn(states[i].table, scope, l)
  {
    InvOnRuns(states, events, i);
    assert StepAt(states, events, i);
    StepGrows(states[i], events[i]);
    if HandedOutIn(states[i + 1].table, scope, l) {
      HandOutNeedsClearStore(states[i], events[i], scope, l);
    }
  }

  ghost predicate AppliedAt(s: System, key: RunKey) {
    key in s.table.runs && s.table.runs[key].Succeeded? && s.table.runs[key].armed
  }

  /**
    Egress containment. Once the control has succeeded for a stored stop, then and ever after, any
    lease in scope that `Acquire` ever handed out was handed out before and its inner cleanup has
    run exactly once; the cleanups the control itself waited for came back without an error.
   */
  lemma ApplyCutsEgress(states: seq<System>, events: seq<Event>, i: nat, j: nat, key: RunKey, l: nat)
    requires IsRun(states, events) && i <= j < |states|
    requires AppliedAt(states[i], key)
    requires HandedOutIn(states[j].table, key.scope, l)
    ensures HandedOutIn(states[i].table, key.scope, l)
    ensures CleanedUp(states[i].table.leases[l]) && states[i].table.leases[l].cleanups == 1
    ensures states[j].table.leases[l].cleanups == 1
    ensures l in states[i].table.runs[key].snapshot ==> !states[j].table.leases[l].failed
  {
    InvOnRuns(states, events, i);
    NoLateHandOut(states, events, i, j, key.scope, l);
    assert Cleared(states[i].table, states[i].table.runs[key]);
    CleanupAtMostOnce(states, events, i, l);
    CleanupAtMostOnce(states, events, j, l);
  }
}
