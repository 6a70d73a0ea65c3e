/** What each step does to an execution and to a run of the control, and what it leaves alone. */
module ExecutionTrackerChanges {
  import opened ExecutionTracker
  import opened StopScope

  /** Admission, rollback, removal, cancellation and closing each have their own step, and a stop cancels its scope. */
  lemma EntryChangesExactly(states: seq<System>, events: seq<Event>, i: nat, e: nat)
    requires IsRun(states, events) && i < |events| && e < |states[i].table.entries|
    ensures e < |states[i + 1].table.entries|
    ensures var x, y, ev := states[i].table.entries[e], states[i + 1].table.entries[e], events[i];
            && y.id == x.id && y.owner == x.owner
            && y.stage == (if ev == SecondCheck(e) then Admitted
                           else if ev == SecondCheckFails(e) then RolledBack else x.stage)
            && (y.removed <==> x.removed || ev == RemoveEntry(e))
            && (y.cancelled <==>
                || x.cancelled || ev == SecondCheckFails(e) || ev == CloseEntry(e)
                || (ev.SnapshotApply? && !x.removed && Covers(ev.key.scope, x.owner)))
            && (y.done <==> x.done || ev == CloseEntry(e))
    ensures var x, ev := states[i].table.entries[e], events[i];
            && (ev == SecondCheck(e) ==> x.stage.Registered? && !Stopped(states[i].stops, x.owner))
            && (ev == RemoveEntry(e) ==> !x.stage.Registered? && !x.removed)
            && (ev == CloseEntry(e) ==> x.removed && !x.done)
  {
    assert StepAt(states, events, i);
  }

  /** No execution that is still in the table has this identifier. */
  ghost predicate Free(t: Table, id: string) {
    forall e | 0 <= e < |t.entries| && !t.entries[e].removed :: t.entries[e].id != id
  }

  /** An execution is registered exactly when no other one with its identifier is still in the table. */
  lemma RegistersExactly(states: seq<System>, events: seq<Event>, i: nat)
    requires IsRun(states, events) && i < |events|
    ensures var t, t', ev := states[i].table, states[i + 1].table, events[i];
            && (ev.RegisterEntry? ==> ev.caller in states[i].begins)
            && if ev.RegisterEntry? && Free(t, states[i].begins[ev.caller].0) then
                 var (id, owner) := states[i].begins[ev.caller];
                 |t'.entries| == |t.entries| + 1
                 && t'.entries[|t.entries|] == Entry(id, owner, Registered, false, false, false)
               else |t'.entries| == |t.entries|
  {
    InvOnRuns(states, events, i);
    assert StepAt(states, events, i);
    if events[i].RegisterEntry? && states[i].begins[events[i].caller].0 in states[i].table.active {
      var e := states[i].table.active[states[i].begins[events[i].caller].0];
      assert !states[i].table.entries[e].removed;
    }
  }

  /** Step `k` let a caller begin with this identifier and owner: the first read found no stop. */
  ghost predicate BegunAt(states: seq<System>, events: seq<Event>, k: nat, caller: nat, id: string, owner: CaseRef)
    requires k < |events| && |states| == |events| + 1
  {
    events[k] == FirstCheck(caller, id, owner) && owner.caseId != "" && !Stopped(states[k].stops, owner)
  }

  lemma {:induction false} CallersBegan(states: seq<System>, events: seq<Event>, i: nat, caller: nat)
    requires IsRun(states, events) && i < |states| && caller in states[i].begins
    ensures exists k: nat ::
              k < i && BegunAt(states, events, k, caller, states[i].begins[caller].0, states[i].begins[caller].1)
  {
    assert i > 0 && StepAt(states, events, i - 1);
    if events[i - 1].FirstCheck? && events[i - 1].caller == caller {
      assert BegunAt(states, events, i - 1, caller, states[i].begins[caller].0, states[i].begins[caller].1);
    } else {
      CallersBegan(states, events, i - 1, caller);
    }
  }

  /** Every execution was begun by a caller, under its identifier and owner, when no stop was over it. */
  lemma {:induction false} EntriesWereBegun(states: seq<System>, events: seq<Event>, i: nat, e: nat)
    requires IsRun(states, events) && i < |states| && e < |states[i].table.entries|
    ensures exists k: nat, caller: nat ::
              k < i && BegunAt(states, events, k, caller, states[i].table.entries[e].id,
                               states[i].table.entries[e].owner)
  {
    assert i > 0;
    if e < |states[i - 1].table.entries| {
      EntriesWereBegun(states, events, i - 1, e);
      EntryChangesExactly(states, events, i - 1, e);
    } else {
      RegistersExactly(states, events, i - 1);
      CallersBegan(states, events, i - 1, events[i - 1].caller);
    }
  }

  /** A run opens once, snapshots the executions in its scope, and waits for each of them or gives up. */
  lemma RunChangesExactly(states: seq<System>, events: seq<Event>, i: nat, key: RunKey)
    requires IsRun(states, events) && i < |events|
    ensures var runs, runs', ev := states[i].table.runs, states[i + 1].table.runs, events[i];
            if ev == StartApply(key) then key !in runs && key in runs' && runs'[key] == Opened
            else if key !in runs then key !in runs'
            else
              && key in runs'
              && if ev == SnapshotApply(key) then
                   && runs[key].Opened? && runs'[key].Waiting? && runs'[key].pending == runs'[key].snapshot
                   && (runs'[key].armed <==> key.scope in states[i].stops)
                   && forall e: nat :: e in runs'[key].snapshot <==>
                        && e < |states[i].table.entries| && !states[i].table.entries[e].removed
                        && Covers(key.scope, states[i].table.entries[e].owner)
                 else if ev.SeeDone? && ev.key == key then
                   && runs[key].Waiting? && ev.entry < |states[i].table.entries|
                   && states[i].table.entries[ev.entry].done
                   && runs'[key] == Waiting(runs[key].armed, runs[key].snapshot, runs[key].pending - {ev.entry})
                 else if ev == FinishApply(key) then
                   && runs[key].Waiting? && runs[key].pending == {}
                   && runs'[key] == Succeeded(runs[key].armed, runs[key].snapshot)
                 else if ev == AbortApply(key) then runs[key].Waiting? && runs'[key] == Failed
                 else runs'[key] == runs[key]
  {
    assert StepAt(states, events, i);
    if events[i] == SnapshotApply(key) {
      SnapshotWithin(states[i], key);
    }
  }

  lemma SnapshotWithin(s: System, key: RunKey)
    requires Enabled(s, SnapshotApply(key))
    ensures var r := Next(s, SnapshotApply(key)).table.runs[key];
            && r.Waiting? && r.pending == r.snapshot && (r.armed <==> key.scope in s.stops)
            && forall e: nat :: e in r.snapshot <==>
                 && e < |s.table.entries| && !s.table.entries[e].removed && Covers(key.scope, s.table.entries[e].owner)
  {
  }

  /** Only an activation stores a stop, and none is ever taken back. */
  lemma StopsChangeExactly(states: seq<System>, events: seq<Event>, i: nat, scope: Scope)
    requires IsRun(states, events) && i < |events|
    ensures scope in states[i + 1].stops <==> scope in states[i].stops || events[i] == Activate(scope)
  {
    assert StepAt(states, events, i);
  }
}
