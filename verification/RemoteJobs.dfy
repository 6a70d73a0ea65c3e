/**
  Remote dispatch under an emergency stop.

  `Use` claims the runner lease, checks the stop store, registers the job by lease identifier without
  looking for an earlier one, checks again, and runs the callback. The remote-job control snapshots the
  matching jobs under the lock and then cancels them one by one; the cooperative control also waits for
  each to finish.
 */
module RemoteJobs {
  import opened StopScope
  import WorkerStore

  /** How far `Use` got with a registered job. */
  datatype Stage = Registered | Refused | Started | Returned

  /** `removed` and `done` are the two halves of `finish`. */
  datatype Job = Job(id: string, owner: CaseRef, stage: Stage, cancelled: bool, removed: bool, done: bool)

  /** The two controls share the run table shape; only the cooperative one waits. */
  datatype RunKey = RunKey(scope: Scope, epoch: nat, cooperative: bool)

  datatype Run =
    | Opened
    | Working(armed: bool, snapshot: set<nat>, uncancelled: set<nat>, unfinished: set<nat>)
    | Succeeded(armed: bool, snapshot: set<nat>)
    | Failed

  datatype Table = Table(jobs: seq<Job>, active: map<string, nat>, runs: map<RunKey, Run>)

  function OwnerOf(l: WorkerStore.Lease): CaseRef {
    var scope := l.grant.request.scope;
    CaseRef(scope.organization, scope.tenant, scope.caseId)
  }

  // ---------- The critical sections, as functions of the table

  /** Registration overwrites: it does not test for a job with the same identifier. */
  function Register(t: Table, id: string, owner: CaseRef): Table {
    t.(jobs := t.jobs + [Job(id, owner, Registered, false, false, false)], active := t.active[id := |t.jobs|])
  }

  function Remove(t: Table, j: nat): Table
    requires j < |t.jobs|
  {
    var job := t.jobs[j];
    t.(jobs := t.jobs[j := job.(removed := true)],
       active := if job.id in t.active && t.active[job.id] == j then t.active - {job.id} else t.active)
  }

  /** The second half of `finish`, outside the lock. */
  function Close(t: Table, j: nat): Table
    requires j < |t.jobs|
  {
    t.(jobs := t.jobs[j := t.jobs[j].(done := true)])
  }

  function Covered(jobs: seq<Job>, scope: Scope): set<nat> {
    set j: nat | j < |jobs| && !jobs[j].removed && Covers(scope, jobs[j].owner)
  }

  /** Every job that has not been removed is found under its own identifier. */
  ghost predicate WellFormed(t: Table) {
    && (forall id <- t.active ::
          t.active[id] < |t.jobs| && t.jobs[t.active[id]].id == id && !t.jobs[t.active[id]].removed)
    && (forall j | 0 <= j < |t.jobs| && !t.jobs[j].removed :: t.jobs[j].id in t.active && t.active[t.jobs[j].id] == j)
    && (forall i, j | 0 <= i < j < |t.jobs| :: t.jobs[i].id != t.jobs[j].id)
  }

  /** The broker's job table. Each method is one section under its lock. */
  class JobTable {
    var jobs: seq<Job>
    var active: map<string, nat>
    var runs: map<RunKey, Run>

    ghost function View(): Table
      reads this
    {
      Table(jobs, active, runs)
    }

    constructor ()
      ensures View() == Table([], map[], map[]) && WellFormed(View())
    {
      jobs, active, runs := [], map[], map[];
    }

    /**
      Registers under any identifier. Well-formedness survives when the identifier was never registered
      before, as that of a claimed lease; an entry that is still active under it loses its place.
     */
    method RegisterJob(id: string, owner: CaseRef) returns (j: nat)
      modifies this
      ensures View() == Register(old(View()), id, owner)
      ensures j == |old(jobs)|
      ensures old(WellFormed(View())) && (forall k | 0 <= k < |old(jobs)| :: old(jobs)[k].id != id) ==>
              WellFormed(View())
      ensures old(WellFormed(View())) && id in old(active) ==> !WellFormed(View())
    {
      j := |jobs|;
      jobs := jobs + [Job(id, owner, Registered, false, false, false)];
      active := active[id := j];
      assert old(WellFormed(View())) && id in old(active) ==> jobs[old(active)[id]].id == jobs[j].id;
    }

    method FinishRemove(j: nat)
      requires WellFormed(View()) && j < |jobs|
      modifies this
      ensures View() == Remove(old(View()), j) && WellFormed(View())
    {
      var id := jobs[j].id;
      jobs := jobs[j := jobs[j].(removed := true)];
      if id in active && active[id] == j {
        active := active - {id};
      }
    }

    method FinishClose(j: nat)
      requires WellFormed(View()) && j < |jobs| && jobs[j].removed
      modifies this
      ensures View() == Close(old(View()), j) && WellFormed(View())
      ensures jobs[j].removed && jobs[j].done
    {
      jobs := jobs[j := jobs[j].(done := true)];
    }

    method JobsFor(scope: Scope) returns (chosen: set<nat>)
      requires WellFormed(View())
      ensures chosen == Covered(jobs, scope)
    {
      chosen := {};
      var todo := active.Keys;
      while todo != {}
        invariant todo <= active.Keys
        invariant forall j: nat :: j in chosen <==> j in Covered(jobs, scope) && jobs[j].id !in todo
        decreases |todo|
      {
        var id :| id in todo;
        if Covers(scope, jobs[active[id]].owner) {
          chosen := chosen + {active[id]};
        }
        todo := todo - {id};
      }
    }
  }

  // ---------- The whole system

  /** `claimed` holds the callers of `Use` that have consumed a lease and not yet registered its job. */
  datatype System = System(stops: set<Scope>, store: WorkerStore.Store, claimed: map<nat, (WorkerStore.Lease, bool)>,
                           table: Table)

  datatype Event =
    | Activate(scope: Scope)
    | StoreCall(call: WorkerStore.Call)
    | ClaimIt(caller: nat, id: string, token: string, now: int)
    | FirstCheck(caller: nat)
    | Refuse(caller: nat)
    | RegisterIt(caller: nat)
    | SecondCheck(job: nat)
    | SecondCheckFails(job: nat)
    | CallbackReturns(job: nat)
    | RemoveJob(job: nat)
    | CloseJob(job: nat)
    | StartApply(key: RunKey)
    | SnapshotApply(key: RunKey)
    | CancelOne(key: RunKey, job: nat)
    | SeeDone(key: RunKey, job: nat)
    | FinishApply(key: RunKey)
    | AbortApply(key: RunKey)

  ghost predicate Enabled(s: System, ev: Event) {
    var t := s.table;
    match ev
    case Activate(scope) => ValidScope(scope)
    case StoreCall(call) => WorkerStore.FromBroker(call) && !call.CallClaim?
    case ClaimIt(caller, id, token, now) =>
      caller !in s.claimed && WorkerStore.ClaimLease(s.store, id, token, now).1.Claim?
    case FirstCheck(caller) => caller in s.claimed && !Stopped(s.stops, OwnerOf(s.claimed[caller].0))
    case Refuse(caller) => caller in s.claimed
    case RegisterIt(caller) => caller in s.claimed && s.claimed[caller].1
    case SecondCheck(j) => j < |t.jobs| && t.jobs[j].stage.Registered? && !Stopped(s.stops, t.jobs[j].owner)
    case SecondCheckFails(j) => j < |t.jobs| && t.jobs[j].stage.Registered?
    case CallbackReturns(j) => j < |t.jobs| && t.jobs[j].stage.Started?
    case RemoveJob(j) => j < |t.jobs| && (t.jobs[j].stage.Refused? || t.jobs[j].stage.Returned?) && !t.jobs[j].removed
    case CloseJob(j) => j < |t.jobs| && t.jobs[j].removed && !t.jobs[j].done
    case StartApply(key) => key !in t.runs
    case SnapshotApply(key) => key in t.runs && t.runs[key].Opened?
    case CancelOne(key, j) => key in t.runs && t.runs[key].Working? && j in t.runs[key].uncancelled && j < |t.jobs|
    case SeeDone(key, j) => key in t.runs && t.runs[key].Working? && j in t.runs[key].unfinished && j < |t.jobs|
      && t.jobs[j].done
    case FinishApply(key) =>
      key in t.runs && t.runs[key].Working? && t.runs[key].uncancelled == {}
      && (key.cooperative ==> t.runs[key].unfinished == {})
    case AbortApply(key) => key in t.runs && t.runs[key].Working? && key.cooperative && t.runs[key].uncancelled == {}
  }

  function SetJob(t: Table, j: nat, job: Job): Table
    requires j < |t.jobs|
  {
    t.(jobs := t.jobs[j := job])
  }

  ghost function Next(s: System, ev: Event): System
    requires Enabled(s, ev)
  {
    var t := s.table;
    match ev
    case Activate(scope) => s.(stops := s.stops + {scope})
    case StoreCall(call) => s.(store := WorkerStore.Step(s.store, call))
    case ClaimIt(caller, id, token, now) =>
      var r := WorkerStore.ClaimLease(s.store, id, token, now);
      s.(store := r.0, claimed := s.claimed[caller := (r.1.lease, false)])
    case FirstCheck(caller) => s.(claimed := s.claimed[caller := (s.claimed[caller].0, true)])
    case Refuse(caller) => s.(claimed := s.claimed - {caller})
    case RegisterIt(caller) =>
      var l := s.claimed[caller].0;
      s.(claimed := s.claimed - {caller}, table := Register(t, l.grant.id, OwnerOf(l)))
    case SecondCheck(j) => s.(table := SetJob(t, j, t.jobs[j].(stage := Started)))
    case SecondCheckFails(j) => s.(table := SetJob(t, j, t.jobs[j].(stage := Refused, cancelled := true)))
    case CallbackReturns(j) => s.(table := SetJob(t, j, t.jobs[j].(stage := Returned)))
    case RemoveJob(j) => s.(table := Remove(t, j))
    case CloseJob(j) => s.(table := Close(t, j))
    case StartApply(key) => s.(table := t.(runs := t.runs[key := Opened]))
    case SnapshotApply(key) =>
      var chosen := Covered(t.jobs, key.scope);
      s.(table := t.(runs := t.runs[key := Working(key.scope in s.stops, chosen, chosen, chosen)]))
    case CancelOne(key, j) =>
      s.(table := SetJob(t, j, t.jobs[j].(cancelled := true)).(
           runs := t.runs[key := t.runs[key].(uncancelled := t.runs[key].uncancelled - {j})]))
    case SeeDone(key, j) =>
      s.(table := t.(runs := t.runs[key := t.runs[key].(unfinished := t.runs[key].unfinished - {j})]))
    case FinishApply(key) =>
      s.(table := t.(runs := t.runs[key := Succeeded(t.runs[key].armed, t.runs[key].snapshot)]))
    case AbortApply(key) => s.(table := t.(runs := t.runs[key := Failed]))
  }

  /** Step `i` is that of its enabled event. */
  ghost predicate StepAt(states: seq<System>, events: seq<Event>, i: nat)
    requires i < |events| && |states| == |events| + 1
  {
    Enabled(states[i], events[i]) && states[i + 1] == Next(states[i], events[i])
  }

  ghost predicate IsRun(states: seq<System>, events: seq<Event>) {
    && |states| == |events| + 1
    && states[0] == System({}, WorkerStore.EMPTY, map[], Table([], map[], map[]))
    && forall i | 0 <= i < |events| :: StepAt(states, events, i)
  }

  // ---------- Claims make job identifiers unique

  ghost predicate StoreOk(s: WorkerStore.Store) {
    WorkerStore.WellFormed(s)
  }

  predicate Consumed(s: WorkerStore.Store, id: string) {
    id in s.leases && s.leases[id].consumed
  }

  /** Every claimed or registered lease is consumed. */
  ghost predicate AllConsumed(s: System) {
    && (forall c <- s.claimed :: Consumed(s.store, s.claimed[c].0.grant.id))
    && (forall j | 0 <= j < |s.table.jobs| :: Consumed(s.store, s.table.jobs[j].id))
  }

  ghost predicate CallersApart(claimed: map<nat, (WorkerStore.Lease, bool)>) {
    forall c, d | c in claimed && d in claimed && c != d :: claimed[c].0.grant.id != claimed[d].0.grant.id
  }

  predicate Unused(jobs: seq<Job>, id: string) {
    forall j | 0 <= j < |jobs| :: jobs[j].id != id
  }

  /** No two of them share an identifier. */
  ghost predicate ClaimsDistinct(s: System) {
    AllConsumed(s) && CallersApart(s.claimed) && forall c <- s.claimed :: Unused(s.table.jobs, s.claimed[c].0.grant.id)
  }

  lemma StoreStep(s: System, ev: Event)
    requires StoreOk(s.store) && Enabled(s, ev)
    ensures StoreOk(Next(s, ev).store)
    ensures forall id | Consumed(s.store, id) :: Consumed(Next(s, ev).store, id)
  {
    var call := match ev
      case StoreCall(call) => call
      case ClaimIt(_, id, token, now) => WorkerStore.CallClaim(id, token, now)
      case _ => WorkerStore.CallRevokeLease("", "");
    if ev.StoreCall? || ev.ClaimIt? {
      WorkerStore.StepWellFormed(s.store, call);
      WorkerStore.StepAdvances(s.store, call);
      assert Next(s, ev).store == WorkerStore.Step(s.store, call);
      forall id | Consumed(s.store, id)
        ensures Consumed(Next(s, ev).store, id)
      {
        assert WorkerStore.LeaseStep(s.store.leases[id], Next(s, ev).store.leases[id]);
      }
    }
  }

  lemma ClaimIsNew(s: System, caller: nat, id: string, token: string, now: int)
    requires StoreOk(s.store) && Enabled(s, ClaimIt(caller, id, token, now))
    ensures var lease := Next(s, ClaimIt(caller, id, token, now)).claimed[caller].0;
            lease.grant.id == id && !Consumed(s.store, id)
            && Consumed(Next(s, ClaimIt(caller, id, token, now)).store, id)
  {
  }

  /** Only a claim adds a caller. */
  lemma ClaimedBefore(s: System, ev: Event, c: nat)
    requires Enabled(s, ev) && c in Next(s, ev).claimed && !(ev.ClaimIt? && ev.caller == c)
    ensures c in s.claimed && Next(s, ev).claimed[c].0 == s.claimed[c].0
  {
  }

  /** Only a registration adds a job, under the identifier of a lease whose caller it takes from the claims. */
  lemma JobNamed(s: System, ev: Event, j: nat)
    requires Enabled(s, ev) && j < |Next(s, ev).table.jobs|
    ensures j < |s.table.jobs| ==> Next(s, ev).table.jobs[j].id == s.table.jobs[j].id
    ensures j >= |s.table.jobs| ==>
              && ev.RegisterIt? && ev.caller !in Next(s, ev).claimed
              && Next(s, ev).table.jobs[j].id == s.claimed[ev.caller].0.grant.id
  {
  }

  lemma ConsumedKept(s: System, ev: Event)
    requires StoreOk(s.store) && AllConsumed(s) && Enabled(s, ev)
    ensures AllConsumed(Next(s, ev))
  {
    StoreStep(s, ev);
    forall c <- Next(s, ev).claimed ensures Consumed(Next(s, ev).store, Next(s, ev).claimed[c].0.grant.id) {
      if ev.ClaimIt? && ev.caller == c {
        ClaimIsNew(s, ev.caller, ev.id, ev.token, ev.now);
      } else {
        ClaimedBefore(s, ev, c);
      }
    }
    forall j | 0 <= j < |Next(s, ev).table.jobs| ensures Consumed(Next(s, ev).store, Next(s, ev).table.jobs[j].id) {
      JobNamed(s, ev, j);
    }
  }

  lemma CallersStayApart(s: System, ev: Event)
    requires StoreOk(s.store) && AllConsumed(s) && CallersApart(s.claimed) && Enabled(s, ev)
    ensures CallersApart(Next(s, ev).claimed)
  {
    if ev.ClaimIt? {
      ClaimIsNew(s, ev.caller, ev.id, ev.token, ev.now);
    }
  }

  lemma ClaimStaysUnused(s: System, ev: Event, c: nat)
    requires StoreOk(s.store) && ClaimsDistinct(s) && Enabled(s, ev) && c in Next(s, ev).claimed
    ensures Unused(Next(s, ev).table.jobs, Next(s, ev).claimed[c].0.grant.id)
  {
    if ev.ClaimIt? && ev.caller == c {
      ClaimIsNew(s, ev.caller, ev.id, ev.token, ev.now);
    } else {
      ClaimedBefore(s, ev, c);
      assert Unused(s.table.jobs, s.claimed[c].0.grant.id);
    }
    forall j | 0 <= j < |Next(s, ev).table.jobs|
      ensures Next(s, ev).table.jobs[j].id != Next(s, ev).claimed[c].0.grant.id
    {
      JobNamed(s, ev, j);
    }
  }

  lemma ClaimsStayDistinct(s: System, ev: Event)
    requires StoreOk(s.store) && ClaimsDistinct(s) && Enabled(s, ev)
    ensures ClaimsDistinct(Next(s, ev))
  {
    ConsumedKept(s, ev);
    CallersStayApart(s, ev);
    forall c <- Next(s, ev).claimed
      ensures Unused(Next(s, ev).table.jobs, Next(s, ev).claimed[c].0.grant.id)
    {
      ClaimStaysUnused(s, ev, c);
    }
  }

  /** So registering a job never replaces another one. */
  lemma RegistrationNeverOverwrites(s: System, caller: nat)
    requires ClaimsDistinct(s) && WellFormed(s.table) && Enabled(s, RegisterIt(caller))
    ensures s.claimed[caller].0.grant.id !in s.table.active
    ensures WellFormed(Next(s, RegisterIt(caller)).table)
  {
    assert Unused(s.table.jobs, s.claimed[caller].0.grant.id);
  }

  // ---------- Containment

  predicate StartedIn(t: Table, scope: Scope, j: nat) {
    j < |t.jobs| && (t.jobs[j].stage.Started? || t.jobs[j].stage.Returned?) && Covers(scope, t.jobs[j].owner)
  }

  predicate Settled(job: Job) {
    job.cancelled || job.stage.Returned?
  }

  ghost predicate Armed(r: Run) {
    (r.Working? || r.Succeeded?) && r.armed
  }

  /** A started callback in scope is cancelled or over, or the control still has to cancel it. */
  ghost predicate CancelsAll(t: Table, scope: Scope, r: Run) {
    forall j: nat | StartedIn(t, scope, j) :: Settled(t.jobs[j]) || (r.Working? && j in r.uncancelled)
  }

  /** A started callback in scope is over, or the cooperative control still waits for it. */
  ghost predicate OutlivesAll(t: Table, scope: Scope, r: Run) {
    forall j: nat | StartedIn(t, scope, j) :: t.jobs[j].stage.Returned? || (r.Working? && j in r.unfinished)
  }

  predicate JobOk(job: Job) {
    && (job.removed ==> job.stage.Refused? || job.stage.Returned?)
    && (job.done ==> job.removed)
  }

  ghost predicate JobsOk(t: Table) {
    forall j | 0 <= j < |t.jobs| :: JobOk(t.jobs[j])
  }

  ghost predicate RunOk(s: System, key: RunKey)
    requires key in s.table.runs
  {
    Armed(s.table.runs[key]) ==>
      && key.scope in s.stops
      && CancelsAll(s.table, key.scope, s.table.runs[key])
      && (key.cooperative ==> OutlivesAll(s.table, key.scope, s.table.runs[key]))
  }

  ghost predicate Inv(s: System) {
    && StoreOk(s.store) && ClaimsDistinct(s) && WellFormed(s.table) && JobsOk(s.table)
    && (forall scope <- s.stops :: ValidScope(scope))
    && (forall key <- s.table.runs :: RunOk(s, key))
  }

  /** What happened to a job is never undone. */
  predicate JobGrows(x: Job, y: Job) {
    && x.id == y.id && x.owner == y.owner
    && (x.cancelled ==> y.cancelled) && (x.stage.Returned? ==> y.stage.Returned?)
    && (x.stage.Started? ==> y.stage.Started? || y.stage.Returned?)
  }

  /** Jobs are never forgotten. */
  ghost predicate Grows(t: Table, t': Table) {
    |t.jobs| <= |t'.jobs| && forall j | 0 <= j < |t.jobs| :: JobGrows(t.jobs[j], t'.jobs[j])
  }

  lemma SameJobGrows(x: Job)
    ensures JobGrows(x, x)
  {
  }

  /** The events that leave the table alone. */
  predicate Outside(ev: Event) {
    ev.Activate? || ev.StoreCall? || ev.ClaimIt? || ev.FirstCheck? || ev.Refuse?
  }

  /** The events that leave the jobs alone. */
  predicate Quiet(ev: Event) {
    Outside(ev) || ev.StartApply? || ev.SnapshotApply? || ev.SeeDone? || ev.FinishApply? || ev.AbortApply?
  }

  lemma QuietKeepsJobs(s: System, ev: Event)
    requires Enabled(s, ev) && Quiet(ev)
    ensures Next(s, ev).table.jobs == s.table.jobs && Next(s, ev).table.active == s.table.active
  {
  }

  lemma LoudGrows(s: System, ev: Event)
    requires Enabled(s, ev) && !Quiet(ev)
    ensures Grows(s.table, Next(s, ev).table)
  {
  }

  lemma StopsStay(s: System, ev: Event)
    requires Enabled(s, ev)
    ensures s.stops <= Next(s, ev).stops
  {
  }

  lemma StepGrows(s: System, ev: Event)
    requires Enabled(s, ev)
    ensures Grows(s.table, Next(s, ev).table) && s.stops <= Next(s, ev).stops
  {
    StopsStay(s, ev);
    if Quiet(ev) {
      QuietKeepsJobs(s, ev);
      forall j | 0 <= j < |s.table.jobs| ensures JobGrows(s.table.jobs[j], s.table.jobs[j]) {
        SameJobGrows(s.table.jobs[j]);
      }
    } else {
      LoudGrows(s, ev);
    }
  }

  lemma TableKept(s: System, ev: Event)
    requires ClaimsDistinct(s) && WellFormed(s.table) && Enabled(s, ev)
    ensures WellFormed(Next(s, ev).table)
  {
    if ev.RegisterIt? {
      RegistrationNeverOverwrites(s, ev.caller);
    } else if ev.RemoveJob? {
      RemovalKeepsTable(s, ev.job);
    } else {
      NamesKept(s, ev);
      SameNamesKeep(s.table, Next(s, ev).table);
    }
  }

  lemma RemovalKeepsTable(s: System, j: nat)
    requires WellFormed(s.table) && Enabled(s, RemoveJob(j))
    ensures WellFormed(Next(s, RemoveJob(j)).table)
  {
    RemoveKeeps(s.table, j);
  }

  ghost predicate SameNames(t: Table, t': Table) {
    && t'.active == t.active && |t'.jobs| == |t.jobs|
    && forall j | 0 <= j < |t.jobs| :: t'.jobs[j].id == t.jobs[j].id && t'.jobs[j].removed == t.jobs[j].removed
  }

  lemma NamesKept(s: System, ev: Event)
    requires Enabled(s, ev) && !ev.RegisterIt? && !ev.RemoveJob?
    ensures SameNames(s.table, Next(s, ev).table)
  {
    if Quiet(ev) {
      QuietKeepsJobs(s, ev);
    } else {
      UpdateKeepsNames(s, ev);
    }
  }

  lemma UpdateKeepsNames(s: System, ev: Event)
    requires Enabled(s, ev) && !Quiet(ev) && !ev.RegisterIt? && !ev.RemoveJob?
    ensures SameNames(s.table, Next(s, ev).table)
  {
  }

  lemma SameNamesKeep(t: Table, t': Table)
    requires WellFormed(t) && SameNames(t, t')
    ensures WellFormed(t')
  {
  }

  lemma RemoveKeeps(t: Table, j: nat)
    requires WellFormed(t) && j < |t.jobs|
    ensures WellFormed(Remove(t, j))
  {
  }

  lemma JobsKept(s: System, ev: Event)
    requires JobsOk(s.table) && Enabled(s, ev)
    ensures JobsOk(Next(s, ev).table)
  {
    if Quiet(ev) {
      QuietKeepsJobs(s, ev);
    } else {
      LoudKeepsJobs(s, ev);
    }
  }

  lemma LoudKeepsJobs(s: System, ev: Event)
    requires JobsOk(s.table) && Enabled(s, ev) && !Quiet(ev)
    ensures JobsOk(Next(s, ev).table)
  {
  }

  /** A callback is started only by a second read that finds no stop over it. */
  lemma StartNeedsClearStore(s: System, ev: Event, scope: Scope, j: nat)
    requires Enabled(s, ev) && (forall x <- s.stops :: ValidScope(x)) && scope in s.stops
    requires StartedIn(Next(s, ev).table, scope, j)
    ensures StartedIn(s.table, scope, j)
  {
    if Quiet(ev) {
      QuietKeepsJobs(s, ev);
    } else if j < |s.table.jobs| {
      GuardAgreesWithControls(s.stops, s.table.jobs[j].owner);
    }
  }

  lemma SnapshotOk(s: System, key: RunKey)
    requires WellFormed(s.table) && JobsOk(s.table) && Enabled(s, SnapshotApply(key))
    ensures RunOk(Next(s, SnapshotApply(key)), key)
  {
  }

  predicate ToCancel(r: Run, j: nat) {
    r.Working? && j in r.uncancelled
  }

  predicate ToAwait(r: Run, j: nat) {
    r.Working? && j in r.unfinished
  }

  /** A run drops a job from its lists only by cancelling it, and by seeing it done. */
  lemma RunStep(s: System, ev: Event, key: RunKey)
    requires JobsOk(s.table) && Enabled(s, ev) && key in Next(s, ev).table.runs && Armed(Next(s, ev).table.runs[key])
             && ev != SnapshotApply(key)
    ensures key in s.table.runs && Armed(s.table.runs[key])
    ensures forall j: nat | j < |s.table.jobs| && ToCancel(s.table.runs[key], j) ::
              ToCancel(Next(s, ev).table.runs[key], j) || Next(s, ev).table.jobs[j].cancelled
    ensures forall j: nat | j < |s.table.jobs| && key.cooperative && ToAwait(s.table.runs[key], j) ::
              ToAwait(Next(s, ev).table.runs[key], j) || s.table.jobs[j].removed
  {
  }

  lemma RunKept(s: System, ev: Event, key: RunKey)
    requires Inv(s) && Enabled(s, ev) && key in Next(s, ev).table.runs
    ensures RunOk(Next(s, ev), key)
  {
    var s' := Next(s, ev);
    if ev == SnapshotApply(key) {
      SnapshotOk(s, key);
    } else if Armed(s'.table.runs[key]) {
      StepGrows(s, ev);
      RunStep(s, ev, key);
      assert RunOk(s, key);
      forall j: nat | StartedIn(s'.table, key.scope, j)
        ensures Settled(s'.table.jobs[j]) || ToCancel(s'.table.runs[key], j)
        ensures key.cooperative ==> s'.table.jobs[j].stage.Returned? || ToAwait(s'.table.runs[key], j)
      {
        StartNeedsClearStore(s, ev, key.scope, j);
      }
    }
  }

  lemma InvPreserved(s: System, ev: Event)
    requires Inv(s) && Enabled(s, ev)
    ensures Inv(Next(s, ev))
  {
    StoreStep(s, ev);
    ClaimsStayDistinct(s, ev);
    TableKept(s, ev);
    JobsKept(s, ev);
    forall key <- Next(s, ev).table.runs
      ensures RunOk(Next(s, ev), key)
    {
      RunKept(s, ev, key);
    }
  }

  lemma {:induction false} InvOnRuns(states: seq<System>, events: seq<Event>, i: nat)
    requires IsRun(states, events) && i < |states|
    ensures Inv(states[i])
  {
    if i > 0 {
      InvOnRuns(states, events, i - 1);
      assert StepAt(states, events, i - 1);
      InvPreserved(states[i - 1], events[i - 1]);
    }
  }

  lemma StopsValidOnRuns(states: seq<System>, events: seq<Event>, i: nat)
    requires IsRun(states, events) && i < |states|
    ensures forall scope <- states[i].stops :: ValidScope(scope)
  {
    InvOnRuns(states, events, i);
  }

  lemma GrowsTransitive(t0: Table, t1: Table, t2: Table)
    requires Grows(t0, t1) && Grows(t1, t2)
    ensures Grows(t0, t2)
  {
  }

  lemma {:induction false} NoLateStart(states: seq<System>, events: seq<Event>, i: nat, j: nat, scope: Scope, job: nat)
    requires IsRun(states, events) && i <= j < |states| && scope in states[i].stops
    ensures Grows(states[i].table, states[j].table) && scope in states[j].stops
    ensures StartedIn(states[j].table, scope, job) ==> StartedIn(states[i].table, scope, job)
    decreases j
  {
    if i < j {
      NoLateStart(states, events, i, j - 1, scope, job);
      LateStep(states, events, j, scope, job);
      GrowsTransitive(states[i].table, states[j - 1].table, states[j].table);
    }
  }

  lemma LateStep(states: seq<System>, events: seq<Event>, j: nat, scope: Scope, job: nat)
    requires IsRun(states, events) && 0 < j < |states| && scope in states[j - 1].stops
    ensures Grows(states[j - 1].table, states[j].table) && scope in states[j].stops
    ensures StartedIn(states[j].table, scope, job) ==> StartedIn(states[j - 1].table, scope, job)
  {
    StopsValidOnRuns(states, events, j - 1);
    assert StepAt(states, events, j - 1);
    StepGrows(states[j - 1], events[j - 1]);
    if StartedIn(states[j].table, scope, job) {
      StartNeedsClearStore(states[j - 1], events[j - 1], scope, job);
    }
  }

  ghost predicate AppliedAt(s: System, key: RunKey) {
    key in s.table.runs && s.table.runs[key].Succeeded? && s.table.runs[key].armed
  }

  /**
    Remote-job containment. Once a control has run for a stored stop, then and ever after, any
    callback in scope that was ever started was started before, and its context is cancelled or it
    has returned; after the cooperative control it has returned.
   */
  lemma ControlContains(states: seq<System>, events: seq<Event>, i: nat, j: nat, key: RunKey, job: nat)
    requires IsRun(states, events) && i <= j < |states|
    requires AppliedAt(states[i], key)
    requires StartedIn(states[j].table, key.scope, job)
    ensures StartedIn(states[i].table, key.scope, job)
    ensures Settled(states[i].table.jobs[job]) && Settled(states[j].table.jobs[job])
    ensures key.cooperative ==> states[i].table.jobs[job].stage.Returned? && states[j].table.jobs[job].stage.Returned?
  {
    InvOnRuns(states, events, i);
    assert RunOk(states[i], key);
    NoLateStart(states, events, i, j, key.scope, job);
  }
}
