/**
  The execution tracker's race with stop activation.

  `Begin` reads the stop store, registers the execution under the lock, and reads the store again
  before it hands the execution out. `Apply` cancels the matching executions under the lock and then
  waits for each of them. Every critical section and every store read is one step, and the steps of
  any number of callers interleave freely.
 */
module ExecutionTracker {
  import opened StopScope
  import opened Wrappers

  /** How far `Begin` got with an entry after registering it. */
  datatype Stage = Registered | Admitted | RolledBack

  /** `removed` and `done` are the two halves of `Finish`: the locked delete, then the closed channel. */
  datatype Entry = Entry(id: string, owner: CaseRef, stage: Stage, removed: bool, cancelled: bool, done: bool)

  datatype RunKey = RunKey(scope: Scope, epoch: nat)

  /** `armed` records that the stop was already stored when the snapshot was taken. */
  datatype Run =
    | Opened
    | Waiting(armed: bool, snapshot: set<nat>, pending: set<nat>)
    | Succeeded(armed: bool, snapshot: set<nat>)
    | Failed

  datatype Table = Table(entries: seq<Entry>, active: map<string, nat>, runs: map<RunKey, Run>)

  /** The table holds exactly the entries whose locked delete has not happened. */
  ghost predicate WellFormed(t: Table) {
    && (forall id <- t.active ::
          t.active[id] < |t.entries| && t.entries[t.active[id]].id == id && !t.entries[t.active[id]].removed)
    && (forall e | 0 <= e < |t.entries| && !t.entries[e].removed ::
          t.entries[e].id in t.active && t.active[t.entries[e].id] == e)
    && (forall e | 0 <= e < |t.entries| && t.entries[e].done :: t.entries[e].removed)
  }

  // ---------- The critical sections, as functions of the table

  function Register(t: Table, id: string, owner: CaseRef): (Table, Option<nat>) {
    if id in t.active then (t, None)
    else
      var e := |t.entries|;
      (t.(entries := t.entries + [Entry(id, owner, Registered, false, false, false)], active := t.active[id := e]),
       Some(e))
  }

  function Remove(t: Table, e: nat): Table
    requires e < |t.entries|
  {
    var entry := t.entries[e];
    t.(entries := t.entries[e := entry.(removed := true)],
       active := if entry.id in t.active && t.active[entry.id] == e then t.active - {entry.id} else t.active)
  }

  function Close(t: Table, e: nat): Table
    requires e < |t.entries|
  {
    t.(entries := t.entries[e := t.entries[e].(cancelled := true, done := true)])
  }

  function SetStage(t: Table, e: nat, stage: Stage): Table
    requires e < |t.entries|
  {
    var entry := t.entries[e];
    t.(entries := t.entries[e := entry.(stage := stage, cancelled := entry.cancelled || stage.RolledBack?)])
  }

  /** The entries in scope whose locked delete has not happened. */
  function Covered(entries: seq<Entry>, scope: Scope): set<nat> {
    set e: nat | e < |entries| && !entries[e].removed && Covers(scope, entries[e].owner)
  }

  function CancelAll(entries: seq<Entry>, chosen: set<nat>): (r: seq<Entry>)
    ensures |r| == |entries|
  {
    seq(|entries|, i requires 0 <= i < |entries| => if i in chosen then entries[i].(cancelled := true) else entries[i])
  }

  function Snapshot(t: Table, key: RunKey, armed: bool): Table {
    var chosen := Covered(t.entries, key.scope);
    t.(entries := CancelAll(t.entries, chosen), runs := t.runs[key := Waiting(armed, chosen, chosen)])
  }

  /** The tracker object. Each method is one section under its lock. */
  class Tracker {
    var entries: seq<Entry>
    var active: map<string, nat>
    var runs: map<RunKey, Run>

    ghost function View(): Table
      reads this
    {
      Table(entries, active, runs)
    }

    constructor ()
      ensures View() == Table([], map[], map[]) && WellFormed(View())
    {
      entries, active, runs := [], map[], map[];
    }

    method RegisterExecution(id: string, owner: CaseRef) returns (r: Option<nat>)
      requires WellFormed(View())
      modifies this
      ensures (View(), r) == Register(old(View()), id, owner)
      ensures WellFormed(View())
    {
      if id in active {
        return None;
      }
      var e := |entries|;
      entries := entries + [Entry(id, owner, Registered, false, false, false)];
      active := active[id := e];
      r := Some(e);
    }

    method FinishRemove(e: nat)
      requires WellFormed(View()) && e < |entries|
      modifies this
      ensures View() == Remove(old(View()), e)
      ensures WellFormed(View())
    {
      var id := entries[e].id;
      entries := entries[e := entries[e].(removed := true)];
      if id in active && active[id] == e {
        active := active - {id};
      }
    }

    method FinishClose(e: nat)
      requires WellFormed(View()) && e < |entries| && entries[e].removed
      modifies this
      ensures View() == Close(old(View()), e)
      ensures WellFormed(View())
    {
      entries := entries[e := entries[e].(cancelled := true, done := true)];
    }

    /** Returns false when a run with this key exists, so the caller only waits for it. */
    method OpenRun(key: RunKey) returns (created: bool)
      modifies this
      ensures created <==> key !in old(runs)
      ensures View() == if created then old(View()).(runs := old(runs)[key := Opened]) else old(View())
    {
      created := key !in runs;
      if created {
        runs := runs[key := Opened];
      }
    }

    /** The loop of `apply` under the lock: pick every active entry in scope and cancel it. */
    method TakeSnapshot(key: RunKey, armed: bool) returns (chosen: set<nat>)
      requires WellFormed(View())
      modifies this
      ensures chosen == Covered(old(entries), key.scope)
      ensures View() == Snapshot(old(View()), key, armed)
      ensures WellFormed(View())
    {
      chosen := {};
      var todo := active.Keys;
      while todo != {}
        invariant todo <= active.Keys && active == old(active) && runs == old(runs)
        invariant forall e: nat :: e in chosen <==> e in Covered(old(entries), key.scope) && old(entries)[e].id !in todo
        invariant entries == CancelAll(old(entries), chosen)
        decreases |todo|
      {
        var id :| id in todo;
        if Covers(key.scope, entries[active[id]].owner) {
          chosen := chosen + {active[id]};
          entries := entries[active[id] := entries[active[id]].(cancelled := true)];
        }
        todo := todo - {id};
      }
      assert chosen == Covered(old(entries), key.scope);
      runs := runs[key := Waiting(armed, chosen, chosen)];
    }
  }

  // ---------- The whole system: the stop store, the callers of `Begin`, and the table

  /** `begins` holds the callers whose first store read found no stop. */
  datatype System = System(stops: set<Scope>, begins: map<nat, (string, CaseRef)>, table: Table)

  datatype Event =
    | Activate(scope: Scope)
    | FirstCheck(caller: nat, id: string, owner: CaseRef)
    | RegisterEntry(caller: nat)
    | SecondCheck(entry: nat)
    | SecondCheckFails(entry: nat)
    | RemoveEntry(entry: nat)
    | CloseEntry(entry: nat)
    | StartApply(key: RunKey)
    | SnapshotApply(key: RunKey)
    | SeeDone(key: RunKey, entry: nat)
    | FinishApply(key: RunKey)
    | AbortApply(key: RunKey)

  ghost predicate Init(s: System) {
    s == System({}, map[], Table([], map[], map[]))
  }

  ghost predicate Enabled(s: System, ev: Event) {
    var t := s.table;
    match ev
    case Activate(scope) => ValidScope(scope)
    case FirstCheck(caller, id, owner) => caller !in s.begins && owner.caseId != "" && !Stopped(s.stops, owner)
    case RegisterEntry(caller) => caller in s.begins
    case SecondCheck(e) => e < |t.entries| && t.entries[e].stage.Registered? && !Stopped(s.stops, t.entries[e].owner)
    case SecondCheckFails(e) => e < |t.entries| && t.entries[e].stage.Registered?
    case RemoveEntry(e) => e < |t.entries| && !t.entries[e].stage.Registered? && !t.entries[e].removed
    case CloseEntry(e) => e < |t.entries| && t.entries[e].removed && !t.entries[e].done
    case StartApply(key) => key !in t.runs
    case SnapshotApply(key) => key in t.runs && t.runs[key].Opened?
    case SeeDone(key, e) => key in t.runs && t.runs[key].Waiting? && e in t.runs[key].pending && e < |t.entries|
      && t.entries[e].done
    case FinishApply(key) => key in t.runs && t.runs[key].Waiting? && t.runs[key].pending == {}
    case AbortApply(key) => key in t.runs && t.runs[key].Waiting?
  }

  ghost function Next(s: System, ev: Event): System
    requires Enabled(s, ev)
  {
    var t := s.table;
    match ev
    case Activate(scope) => s.(stops := s.stops + {scope})
    case FirstCheck(caller, id, owner) => s.(begins := s.begins[caller := (id, owner)])
    case RegisterEntry(caller) =>
      s.(begins := s.begins - {caller}, table := Register(t, s.begins[caller].0, s.begins[caller].1).0)
    case SecondCheck(e) => s.(table := SetStage(t, e, Admitted))
    case SecondCheckFails(e) => s.(table := SetStage(t, e, RolledBack))
    case RemoveEntry(e) => s.(table := Remove(t, e))
    case CloseEntry(e) => s.(table := Close(t, e))
    case StartApply(key) => s.(table := t.(runs := t.runs[key := Opened]))
    case SnapshotApply(key) => s.(table := Snapshot(t, key, key.scope in s.stops))
    case SeeDone(key, e) =>
      s.(table := t.(runs := t.runs[key := t.runs[key].(pending := t.runs[key].pending - {e})]))
    case FinishApply(key) =>
      s.(table := t.(runs := t.runs[key := Succeeded(t.runs[key].armed, t.runs[key].snapshot)]))
    case AbortApply(key) => s.(table := t.(runs := t.runs[key := Failed]))
  }

  /** Step `i` is that of its enabled event. */
  ghost predicate StepAt(states: seq<System>, events: seq<Event>, i: nat)
    requires i < |events| && |states| == |events| + 1
  {
    Enabled(states[i], events[i]) && states[i + 1] == Next(states[i], events[i])
  }

  /** A run of the system: any interleaving of enabled steps from the empty tracker. */
  ghost predicate IsRun(states: seq<System>, events: seq<Event>) {
    && |states| == |events| + 1
    && Init(states[0])
    && forall i | 0 <= i < |events| :: StepAt(states, events, i)
  }

  predicate AdmittedIn(t: Table, scope: Scope, e: nat) {
    e < |t.entries| && t.entries[e].stage.Admitted? && Covers(scope, t.entries[e].owner)
  }

  ghost predicate Armed(r: Run) {
    (r.Waiting? || r.Succeeded?) && r.armed
  }

  /** An admitted execution in scope is removed, or the run still waits for it. */
  ghost predicate Contains(t: Table, scope: Scope, r: Run) {
    forall e: nat | AdmittedIn(t, scope, e) :: t.entries[e].removed || (r.Waiting? && e in r.pending)
  }

  /** Every entry a run cancelled stays cancelled, and one no longer waited for is done. */
  ghost predicate Cancelled(t: Table, r: Run) {
    r.Waiting? || r.Succeeded? ==>
      forall e <- r.snapshot ::
        e < |t.entries| && t.entries[e].cancelled && (r.Succeeded? || e !in r.pending ==> t.entries[e].done)
  }

  ghost predicate Inv(s: System) {
    && WellFormed(s.table)
    && (forall scope <- s.stops :: ValidScope(scope))
    && (forall key <- s.table.runs | Armed(s.table.runs[key]) ::
          key.scope in s.stops && Contains(s.table, key.scope, s.table.runs[key]))
    && (forall key <- s.table.runs :: Cancelled(s.table, s.table.runs[key]))
  }

  /** What happened to an entry is never undone. */
  predicate EntryGrows(x: Entry, y: Entry) {
    && x.id == y.id && x.owner == y.owner
    && (x.stage.Admitted? ==> y.stage.Admitted?)
    && (x.removed ==> y.removed) && (x.cancelled ==> y.cancelled) && (x.done ==> y.done)
  }

  /** Entries are never forgotten. */
  ghost predicate Grows(t: Table, t': Table) {
    |t.entries| <= |t'.entries| && forall e | 0 <= e < |t.entries| :: EntryGrows(t.entries[e], t'.entries[e])
  }

  ghost predicate SameNames(t: Table, t': Table) {
    && t'.active == t.active && |t'.entries| == |t.entries|
    && forall e | 0 <= e < |t.entries| ::
         && t'.entries[e].id == t.entries[e].id && t'.entries[e].removed == t.entries[e].removed
         && (t'.entries[e].done ==> t.entries[e].done || t.entries[e].removed)
  }

  lemma SameNamesKeep(t: Table, t': Table)
    requires WellFormed(t) && SameNames(t, t')
    ensures WellFormed(t')
  {
  }

  lemma RegisterKeeps(t: Table, id: string, owner: CaseRef)
    requires WellFormed(t)
    ensures WellFormed(Register(t, id, owner).0)
  {
  }

  lemma RemoveKeeps(t: Table, e: nat)
    requires WellFormed(t) && e < |t.entries|
    ensures WellFormed(Remove(t, e))
  {
  }

  lemma NamesKept(s: System, ev: Event)
    requires Enabled(s, ev) && !ev.RegisterEntry? && !ev.RemoveEntry?
    ensures SameNames(s.table, Next(s, ev).table)
  {
  }

  lemma TableByRegister(s: System, ev: Event)
    requires WellFormed(s.table) && Enabled(s, ev) && (ev.RegisterEntry? || ev.RemoveEntry?)
    ensures WellFormed(Next(s, ev).table)
  {
    if ev.RegisterEntry? {
      RegisterKeeps(s.table, s.begins[ev.caller].0, s.begins[ev.caller].1);
    } else {
      RemoveKeeps(s.table, ev.entry);
    }
  }

  lemma WellFormedPreserved(s: System, ev: Event)
    requires WellFormed(s.table) && Enabled(s, ev)
    ensures WellFormed(Next(s, ev).table)
  {
    if ev.RegisterEntry? || ev.RemoveEntry? {
      TableByRegister(s, ev);
    } else {
      NamesKept(s, ev);
      SameNamesKeep(s.table, Next(s, ev).table);
    }
  }

  lemma StepGrows(s: System, ev: Event)
    requires Enabled(s, ev)
    ensures Grows(s.table, Next(s, ev).table) && s.stops <= Next(s, ev).stops
  {
  }

  /** An execution is admitted only by a second read that finds no stop over it. */
  lemma AdmissionNeedsClearStore(s: System, ev: Event, scope: Scope, e: nat)
    requires Enabled(s, ev) && (forall x <- s.stops :: ValidScope(x)) && scope in s.stops
    requires AdmittedIn(Next(s, ev).table, scope, e)
    ensures AdmittedIn(s.table, scope, e)
  {
    if e < |s.table.entries| {
      GuardAgreesWithControls(s.stops, s.table.entries[e].owner);
    }
  }

  lemma RunsPreserved(s: System, ev: Event, key: RunKey)
    requires Inv(s) && Enabled(s, ev) && key in Next(s, ev).table.runs
    ensures Cancelled(Next(s, ev).table, Next(s, ev).table.runs[key])
    ensures Armed(Next(s, ev).table.runs[key]) ==>
              key.scope in Next(s, ev).stops && Contains(Next(s, ev).table, key.scope, Next(s, ev).table.runs[key])
  {
    if ev == SnapshotApply(key) {
      SnapshotRuns(s, key);
    } else {
      CancelledPreserved(s, ev, key);
      if Armed(Next(s, ev).table.runs[key]) {
        ContainsPreserved(s, ev, key);
      }
    }
  }

  lemma SnapshotRuns(s: System, key: RunKey)
    requires WellFormed(s.table) && Enabled(s, SnapshotApply(key))
    ensures var s' := Next(s, SnapshotApply(key));
            && Cancelled(s'.table, s'.table.runs[key])
            && (Armed(s'.table.runs[key]) ==>
                key.scope in s'.stops && Contains(s'.table, key.scope, s'.table.runs[key]))
  {
  }

  predicate Waits(r: Run, e: nat) {
    r.Waiting? && e in r.pending
  }

  /** A run keeps its arming and its snapshot, and stops waiting for an entry only when that is done. */
  lemma RunStep(s: System, ev: Event, key: RunKey)
    requires Enabled(s, ev) && key in Next(s, ev).table.runs && ev != SnapshotApply(key)
    requires Next(s, ev).table.runs[key].Waiting? || Next(s, ev).table.runs[key].Succeeded?
    ensures key in s.table.runs && (s.table.runs[key].Waiting? || s.table.runs[key].Succeeded?)
    ensures s.table.runs[key].armed == Next(s, ev).table.runs[key].armed
    ensures s.table.runs[key].snapshot == Next(s, ev).table.runs[key].snapshot
    ensures forall e: nat | Waits(s.table.runs[key], e) ::
              Waits(Next(s, ev).table.runs[key], e) || (e < |s.table.entries| && s.table.entries[e].done)
  {
  }

  lemma CancelledPreserved(s: System, ev: Event, key: RunKey)
    requires Inv(s) && Enabled(s, ev) && key in Next(s, ev).table.runs && ev != SnapshotApply(key)
    ensures Cancelled(Next(s, ev).table, Next(s, ev).table.runs[key])
  {
    var t, r := Next(s, ev).table, Next(s, ev).table.runs[key];
    if r.Waiting? || r.Succeeded? {
      RunStep(s, ev, key);
      StepGrows(s, ev);
      assert Cancelled(s.table, s.table.runs[key]);
      forall e <- r.snapshot
        ensures e < |t.entries| && t.entries[e].cancelled && (r.Succeeded? || e !in r.pending ==> t.entries[e].done)
      {
        assert EntryGrows(s.table.entries[e], t.entries[e]);
      }
    }
  }

  lemma ContainsPreserved(s: System, ev: Event, key: RunKey)
    requires Inv(s) && Enabled(s, ev) && key in Next(s, ev).table.runs && ev != SnapshotApply(key)
    requires Armed(Next(s, ev).table.runs[key])
    ensures key.scope in Next(s, ev).stops && Contains(Next(s, ev).table, key.scope, Next(s, ev).table.runs[key])
  {
    var t, r := Next(s, ev).table, Next(s, ev).table.runs[key];
    RunStep(s, ev, key);
    StepGrows(s, ev);
    forall e: nat | AdmittedIn(t, key.scope, e) ensures t.entries[e].removed || Waits(r, e) {
      AdmissionNeedsClearStore(s, ev, key.scope, e);
      assert EntryGrows(s.table.entries[e], t.entries[e]);
    }
  }

  lemma InvPreserved(s: System, ev: Event)
    requires Inv(s) && Enabled(s, ev)
    ensures Inv(Next(s, ev))
  {
    WellFormedPreserved(s, ev);
    forall key <- Next(s, ev).table.runs
      ensures Cancelled(Next(s, ev).table, Next(s, ev).table.runs[key])
      ensures Armed(Next(s, ev).table.runs[key]) ==>
                key.scope in Next(s, ev).stops && Contains(Next(s, ev).table, key.scope, Next(s, ev).table.runs[key])
    {
      RunsPreserved(s, ev, key);
    }
  }

  lemma {:induction false} InvOnRuns(states: seq<System>, events: seq<Event>, i: nat)
    requires IsRun(states, events) && i < |states|
    ensures Inv(states[i])
  {
    if i > 0 {
      InvOnRuns(states, events, i - 1);
      assert StepAt(states, events, i - 1);
      InvPreserved(states[i - 1], events[i - 1]);
    }
  }

  /** What a stored stop keeps from the moment of state `i` on. */
  lemma {:induction false} NoLateAdmission(states: seq<System>, events: seq<Event>, i: nat, j: nat, scope: Scope,
                                           e: nat)
    requires IsRun(states, events) && i <= j < |states|
    requires scope in states[i].stops
    ensures Grows(states[i].table, states[j].table) && scope in states[j].stops
    ensures AdmittedIn(states[j].table, scope, e) ==> AdmittedIn(states[i].table, scope, e)
    decreases j
  {
    if i < j {
      NoLateAdmission(states, events, i, j - 1, scope, e);
      LateStep(states, events, j - 1, scope, e);
      GrowsTransitive(states[i].table, states[j - 1].table, states[j].table);
    }
  }

  lemma LateStep(states: seq<System>, events: seq<Event>, i: nat, scope: Scope, e: nat)
    requires IsRun(states, events) && i < |events| && scope in states[i].stops
    ensures Grows(states[i].table, states[i + 1].table) && scope in states[i + 1].stops
    ensures AdmittedIn(states[i + 1].table, scope, e) ==> AdmittedIn(states[i].table, scope, e)
  {
    InvOnRuns(states, events, i);
    assert StepAt(states, events, i);
    StepGrows(states[i], events[i]);
    if AdmittedIn(states[i + 1].table, scope, e) {
      AdmissionNeedsClearStore(states[i], events[i], scope, e);
    }
  }

  lemma GrowsTransitive(t0: Table, t1: Table, t2: Table)
    requires Grows(t0, t1) && Grows(t1, t2)
    ensures Grows(t0, t2)
  {
  }

  ghost predicate AppliedAt(s: System, key: RunKey) {
    key in s.table.runs && s.table.runs[key].Succeeded? && s.table.runs[key].armed
  }

  /**
    Containment. Once a run of the control for a stored stop has succeeded, at that moment and at
    every later one, any execution in scope that `Begin` ever admitted was admitted before and has
    been finished by its owner: no later `Begin` in that scope is admitted.
   */
  lemma ApplyContains(states: seq<System>, events: seq<Event>, i: nat, j: nat, key: RunKey, e: nat)
    requires IsRun(states, events) && i <= j < |states|
    requires AppliedAt(states[i], key)
    requires AdmittedIn(states[j].table, key.scope, e)
    ensures AdmittedIn(states[i].table, key.scope, e)
    ensures states[i].table.entries[e].removed && states[j].table.entries[e].removed
  {
    InvOnRuns(states, events, i);
    NoLateAdmission(states, events, i, j, key.scope, e);
  }

  // ---------- When every contained execution has also closed its done channel

  predicate Finishing(e: Entry) {
    e.removed && !e.done
  }

  predicate ClosedBetween(events: seq<Event>, k: nat, i: nat, e: nat) {
    exists m: nat | k <= m < i && m < |events| :: events[m] == CloseEntry(e)
  }

  /** What the run for `key` holds after its snapshot was taken in state `s`. */
  ghost predicate TakenAt(s: System, key: RunKey, t: Table) {
    && key in t.runs && !t.runs[key].Opened?
    && (t.runs[key].Waiting? || t.runs[key].Succeeded? ==>
          t.runs[key].armed == (key.scope in s.stops) && t.runs[key].snapshot == Covered(s.table.entries, key.scope))
  }

  lemma SnapshotTaken(s: System, key: RunKey)
    requires Enabled(s, SnapshotApply(key))
    ensures TakenAt(s, key, Next(s, SnapshotApply(key)).table)
  {
  }

  lemma TakenStays(s0: System, key: RunKey, s: System, ev: Event)
    requires TakenAt(s0, key, s.table) && Enabled(s, ev)
    ensures TakenAt(s0, key, Next(s, ev).table)
  {
  }

  /** A run keeps the snapshot it took; there is no second one. */
  lemma {:induction false} SnapshotStays(states: seq<System>, events: seq<Event>, k: nat, i: nat, key: RunKey)
    requires IsRun(states, events) && k < i < |states| && events[k] == SnapshotApply(key)
    ensures TakenAt(states[k], key, states[i].table)
    decreases i
  {
    assert StepAt(states, events, i - 1);
    if i == k + 1 {
      SnapshotTaken(states[k], key);
    } else {
      SnapshotStays(states, events, k, i - 1, key);
      TakenStays(states[k], key, states[i - 1], events[i - 1]);
    }
  }

  lemma SnapshotOnce(states: seq<System>, events: seq<Event>, k: nat, m: nat, key: RunKey)
    requires IsRun(states, events) && k < |events| && m < |events|
    requires events[k] == SnapshotApply(key) && events[m] == SnapshotApply(key)
    ensures k == m
  {
    assert StepAt(states, events, k) && StepAt(states, events, m);
    if k < m {
      SnapshotStays(states, events, k, m, key);
    } else if m < k {
      SnapshotStays(states, events, m, k, key);
    }
  }

  /** A run that waits or has succeeded took its snapshot at some earlier step. */
  lemma {:induction false} SnapshotHappened(states: seq<System>, events: seq<Event>, i: nat, key: RunKey)
    returns (k: nat)
    requires IsRun(states, events) && i < |states| && key in states[i].table.runs
    requires states[i].table.runs[key].Waiting? || states[i].table.runs[key].Succeeded?
    ensures k < i && events[k] == SnapshotApply(key)
    decreases i
  {
    if events[i - 1] == SnapshotApply(key) {
      k := i - 1;
    } else {
      assert StepAt(states, events, i - 1);
      WasTaken(states[i - 1], events[i - 1], key);
      k := SnapshotHappened(states, events, i - 1, key);
    }
  }

  lemma WasTaken(s: System, ev: Event, key: RunKey)
    requires Enabled(s, ev) && ev != SnapshotApply(key) && key in Next(s, ev).table.runs
    requires Next(s, ev).table.runs[key].Waiting? || Next(s, ev).table.runs[key].Succeeded?
    ensures key in s.table.runs && (s.table.runs[key].Waiting? || s.table.runs[key].Succeeded?)
  {
  }

  lemma DoneByClose(s: System, ev: Event, e: nat)
    requires Enabled(s, ev) && e < |s.table.entries| && !s.table.entries[e].done
    ensures e < |Next(s, ev).table.entries|
    ensures Next(s, ev).table.entries[e].done <==> ev == CloseEntry(e)
  {
  }

  /** An execution that is not done becomes done by its own close and by nothing else. */
  lemma {:induction false} DoneExactlyByClose(states: seq<System>, events: seq<Event>, k: nat, i: nat, e: nat)
    requires IsRun(states, events) && k <= i < |states|
    requires e < |states[k].table.entries| && !states[k].table.entries[e].done
    ensures e < |states[i].table.entries|
    ensures states[i].table.entries[e].done <==> ClosedBetween(events, k, i, e)
    decreases i
  {
    if k < i {
      DoneExactlyByClose(states, events, k, i - 1, e);
      assert StepAt(states, events, i - 1);
      if states[i - 1].table.entries[e].done {
        StepGrows(states[i - 1], events[i - 1]);
        var m: nat :| k <= m < i - 1 && events[m] == CloseEntry(e);
        assert ClosedBetween(events, k, i, e);
      } else {
        DoneByClose(states[i - 1], events[i - 1], e);
        if events[i - 1] == CloseEntry(e) {
          assert ClosedBetween(events, k, i, e);
        }
      }
    }
  }

  /** The executions in scope that a successful run contains are those admitted when its snapshot was taken. */
  lemma AdmittedAtSnapshot(states: seq<System>, events: seq<Event>, k: nat, i: nat, key: RunKey, e: nat)
    requires IsRun(states, events) && k < i < |states| && events[k] == SnapshotApply(key) && AppliedAt(states[i], key)
    ensures AdmittedIn(states[i].table, key.scope, e) <==> AdmittedIn(states[k].table, key.scope, e)
    ensures e < |states[k].table.entries| ==>
              e < |states[i].table.entries| && (states[k].table.entries[e].done ==> states[i].table.entries[e].done)
  {
    SnapshotStays(states, events, k, i, key);
    NoLateAdmission(states, events, k, i, key.scope, e);
  }

  /** What the snapshot took is done when the run succeeds. */
  lemma SnapshotIsDone(states: seq<System>, events: seq<Event>, k: nat, i: nat, key: RunKey, e: nat)
    requires IsRun(states, events) && k < i < |states| && events[k] == SnapshotApply(key) && AppliedAt(states[i], key)
    requires AdmittedIn(states[k].table, key.scope, e) && !states[k].table.entries[e].removed
    ensures e < |states[i].table.entries| && states[i].table.entries[e].done
  {
    SnapshotStays(states, events, k, i, key);
    InvOnRuns(states, events, i);
    assert e in states[i].table.runs[key].snapshot;
    assert Cancelled(states[i].table, states[i].table.runs[key]);
  }

  /** One execution is done when the run succeeds unless its `Finish` was halfway at the snapshot and did not close. */
  lemma DoneAtSuccess(states: seq<System>, events: seq<Event>, k: nat, i: nat, key: RunKey, e: nat)
    requires IsRun(states, events) && k < i < |states| && events[k] == SnapshotApply(key) && AppliedAt(states[i], key)
    requires AdmittedIn(states[k].table, key.scope, e)
    ensures e < |states[i].table.entries|
    ensures states[i].table.entries[e].done
       <==> (Finishing(states[k].table.entries[e]) ==> ClosedBetween(events, k, i, e))
  {
    AdmittedAtSnapshot(states, events, k, i, key, e);
    if !states[k].table.entries[e].removed {
      SnapshotIsDone(states, events, k, i, key, e);
    } else if !states[k].table.entries[e].done {
      DoneExactlyByClose(states, events, k, i, e);
    }
  }

  /**
    The stronger reading, that every such execution has also closed its done channel, can fail. It
    holds exactly when every `Finish` that was halfway as the snapshot was taken, in step `k`, has
    closed by then.
   */
  lemma ApplyClosesExactly(states: seq<System>, events: seq<Event>, k: nat, i: nat, key: RunKey)
    requires IsRun(states, events) && k < i < |states| && events[k] == SnapshotApply(key) && AppliedAt(states[i], key)
    ensures (forall e: nat | AdmittedIn(states[i].table, key.scope, e) :: states[i].table.entries[e].done)
       <==> (forall e: nat | AdmittedIn(states[k].table, key.scope, e) && Finishing(states[k].table.entries[e]) ::
               ClosedBetween(events, k, i, e))
  {
    forall e: nat
      ensures AdmittedIn(states[i].table, key.scope, e) <==> AdmittedIn(states[k].table, key.scope, e)
      ensures AdmittedIn(states[k].table, key.scope, e) ==>
                (states[i].table.entries[e].done
                 <==> (Finishing(states[k].table.entries[e]) ==> ClosedBetween(events, k, i, e)))
    {
      AdmittedAtSnapshot(states, events, k, i, key, e);
      if AdmittedIn(states[k].table, key.scope, e) {
        DoneAtSuccess(states, events, k, i, key, e);
      }
    }
  }

  /** So with no `Finish` halfway at the snapshot, success means that every admitted execution is done. */
  lemma QuietSnapshotCloses(states: seq<System>, events: seq<Event>, k: nat, i: nat, key: RunKey, e: nat)
    requires IsRun(states, events) && k < i < |states| && events[k] == SnapshotApply(key) && AppliedAt(states[i], key)
    requires forall x: nat | AdmittedIn(states[k].table, key.scope, x) :: !Finishing(states[k].table.entries[x])
    requires AdmittedIn(states[i].table, key.scope, e)
    ensures states[i].table.entries[e].done
  {
    ApplyClosesExactly(states, events, k, i, key);
  }

  lemma Extend(states: seq<System>, events: seq<Event>, ev: Event) returns (longer: seq<System>)
    requires IsRun(states, events) && Enabled(states[|states| - 1], ev)
    ensures IsRun(longer, events + [ev])
    ensures longer[|longer| - 1] == Next(states[|states| - 1], ev)
  {
    longer := states + [Next(states[|states| - 1], ev)];
    var longerEvents := events + [ev];
    forall i | 0 <= i < |longerEvents| ensures StepAt(longer, longerEvents, i) {
      if i < |events| {
        assert StepAt(states, events, i);
      }
    }
  }

  /** A run to an execution that was admitted and is between the two halves of `Finish`. */
  lemma HalfFinished(owner: CaseRef) returns (states: seq<System>, events: seq<Event>)
    requires owner.caseId != ""
    ensures IsRun(states, events)
    ensures states[|states| - 1]
         == System({}, map[], Table([Entry("x", owner, Admitted, true, false, false)], map[], map[]))
  {
    states, events := [System({}, map[], Table([], map[], map[]))], [];
    states := Extend(states, events, FirstCheck(0, "x", owner));
    events := events + [FirstCheck(0, "x", owner)];
    states := Extend(states, events, RegisterEntry(0));
    events := events + [RegisterEntry(0)];
    assert states[|states| - 1].table
           == Table([Entry("x", owner, Registered, false, false, false)], map["x" := 0], map[]);
    states := Extend(states, events, SecondCheck(0));
    events := events + [SecondCheck(0)];
    states := Extend(states, events, RemoveEntry(0));
    events := events + [RemoveEntry(0)];
  }

  /** Such a run exists: the owner is between the two halves of `Finish` when the snapshot is taken. */
  lemma ApplyCanPassAnUnclosedExecution() returns (states: seq<System>, events: seq<Event>, key: RunKey)
    ensures IsRun(states, events) && AppliedAt(states[|states| - 1], key)
    ensures AdmittedIn(states[|states| - 1].table, key.scope, 0) && !states[|states| - 1].table.entries[0].done
  {
    key := RunKey(Global("o", "t"), 1);
    states, events := HalfFinished(CaseRef("o", "t", "c"));
    states := Extend(states, events, Activate(key.scope));
    events := events + [Activate(key.scope)];
    states := Extend(states, events, StartApply(key));
    events := events + [StartApply(key)];
    states := Extend(states, events, SnapshotApply(key));
    events := events + [SnapshotApply(key)];
    assert states[|states| - 1].table.runs[key] == Waiting(true, {}, {});
    states := Extend(states, events, FinishApply(key));
    events := events + [FinishApply(key)];
  }
}
