/** What each step does to a network lease and to a run of the egress control, and what it leaves alone. */
module NetworkContainmentChanges {
  import opened NetworkContainment
  import opened StopScope

  /** Where a lease stands in the table: registered, and its delete has not happened. */
  predicate InTable(l: Lease) {
    l.stage in {Registered, HandedOut, Rejected} && l.phase in {Open, Running, Returned}
  }

  /** No lease in the table has this identifier. */
  ghost predicate Free(t: Table, id: string) {
    forall l | 0 <= l < |t.leases| && InTable(t.leases[l]) :: t.leases[l].id != id
  }

  /** `Acquire` registers a lease unless its identifier is taken, and hands it out unless a stop is over it. */
  lemma StageChangesExactly(states: seq<System>, events: seq<Event>, i: nat, l: nat)
    requires IsRun(states, events) && i < |events| && l < |states[i].table.leases|
    ensures l < |states[i + 1].table.leases|
    ensures var t, x, y, ev := states[i].table, states[i].table.leases[l], states[i + 1].table.leases[l], events[i];
            && y.id == x.id && y.owner == x.owner
            && y.stage == (if ev == RegisterIt(l) then (if Free(t, x.id) then Registered else Conflicting)
                           else if ev == SecondCheck(l) then HandedOut
                           else if ev == SecondCheckFails(l) then Rejected else x.stage)
            && (ev == RegisterIt(l) ==> x.stage.Obtained?)
            && (ev == SecondCheck(l) ==> x.stage.Registered? && !Stopped(states[i].stops, x.owner))
            && (ev == SecondCheckFails(l) ==> x.stage.Registered?)
  {
    InvOnRuns(states, events, i);
    assert StepAt(states, events, i);
    if events[i] == RegisterIt(l) {
      FreeExactly(states[i].table, states[i].table.leases[l].id);
    }
  }

  lemma FreeExactly(t: Table, id: string)
    requires WellFormed(t)
    ensures Free(t, id) <==> id !in t.active
  {
    if id in t.active {
      assert InTable(t.leases[t.active[id]]);
    }
  }

  /** A close goes through its phases one by one; only the step that opens it counts a cleanup. */
  lemma PhaseChangesExactly(states: seq<System>, events: seq<Event>, i: nat, l: nat)
    requires IsRun(states, events) && i < |events| && l < |states[i].table.leases|
    ensures l < |states[i + 1].table.leases|
    ensures var x, y, ev := states[i].table.leases[l], states[i + 1].table.leases[l], events[i];
            && y.phase == (if ev == StartClose(l) && x.phase.Open? then Running
                           else if ev.CleanupReturns? && ev.lease == l then Returned
                           else if ev == DeleteIt(l) then Deleted
                           else if ev == CloseDone(l) then Closed else x.phase)
            && y.cleanups == x.cleanups + (if ev == StartClose(l) && x.phase.Open? then 1 else 0)
            && y.failed == (if ev.CleanupReturns? && ev.lease == l then ev.failed else x.failed)
            && (ev.CleanupReturns? && ev.lease == l ==> x.phase.Running?)
            && (ev == DeleteIt(l) ==> x.phase.Returned?)
            && (ev == CloseDone(l) ==> x.phase.Deleted?)
  {
    assert StepAt(states, events, i);
  }

  /** A close is begun only by the owner, by the `Acquire` that failed, or by a run whose snapshot holds the lease. */
  lemma ClosedByTheEntitled(states: seq<System>, events: seq<Event>, i: nat, l: nat)
    requires IsRun(states, events) && i < |events| && events[i] == StartClose(l)
    ensures l < |states[i].table.leases|
    ensures || states[i].table.leases[l].stage in {HandedOut, Conflicting, Rejected}
            || exists key <- states[i].table.runs ::
                 var r := states[i].table.runs[key]; (r.Closing? || r.Failed?) && l in r.snapshot
  {
    assert StepAt(states, events, i);
  }

  /** The inner broker's answer becomes a lease; one without identifier or cleanup is cleaned up at once and refused. */
  lemma LeasesAppearExactly(states: seq<System>, events: seq<Event>, i: nat)
    requires IsRun(states, events) && i < |events|
    ensures var leases, leases', ev := states[i].table.leases, states[i + 1].table.leases, events[i];
            if ev.InnerAcquire? then
              && ev.caller in states[i].callers && |leases'| == |leases| + 1
              && var x := leases'[|leases|];
                 && x.id == ev.id && x.owner == states[i].callers[ev.caller] && !x.failed
                 && if ev.id != "" && ev.hasCleanup then x.stage.Obtained? && x.phase.Open? && x.cleanups == 0
                    else x.stage.Unusable? && x.phase.Closed? && x.cleanups == (if ev.hasCleanup then 1 else 0)
            else |leases'| == |leases|
  {
    assert StepAt(states, events, i);
  }

  /** Step `k` let a caller acquire for this owner: the first read found no stop. */
  ghost predicate AskedAt(states: seq<System>, events: seq<Event>, k: nat, caller: nat, owner: CaseRef)
    requires k < |events| && |states| == |events| + 1
  {
    events[k] == FirstCheck(caller, owner) && !Stopped(states[k].stops, owner)
  }

  lemma {:induction false} CallersAsked(states: seq<System>, events: seq<Event>, i: nat, caller: nat)
    requires IsRun(states, events) && i < |states| && caller in states[i].callers
    ensures exists k: nat :: k < i && AskedAt(states, events, k, caller, states[i].callers[caller])
  {
    assert i > 0 && StepAt(states, events, i - 1);
    if events[i - 1].FirstCheck? && events[i - 1].caller == caller {
      assert AskedAt(states, events, i - 1, caller, states[i].callers[caller]);
    } else {
      CallersAsked(states, events, i - 1, caller);
    }
  }

  /** Every lease belongs to the owner a caller asked for, when no stop was over it. */
  lemma {:induction false} LeasesWereAsked(states: seq<System>, events: seq<Event>, i: nat, l: nat)
    requires IsRun(states, events) && i < |states| && l < |states[i].table.leases|
    ensures exists k: nat, caller: nat :: k < i && AskedAt(states, events, k, caller, states[i].table.leases[l].owner)
  {
    assert i > 0;
    if l < |states[i - 1].table.leases| {
      LeasesWereAsked(states, events, i - 1, l);
      StageChangesExactly(states, events, i - 1, l);
    } else {
      LeasesAppearExactly(states, events, i - 1);
      CallersAsked(states, events, i - 1, events[i - 1].caller);
    }
  }

  /** A run opens once, takes the leases in its scope, and fails when a cleanup it waited for failed. */
  lemma RunChangesExactly(states: seq<System>, events: seq<Event>, i: nat, key: RunKey)
    requires IsRun(states, events) && i < |events|
    ensures var runs, runs', ev := states[i].table.runs, states[i + 1].table.runs, events[i];
            if ev == StartApply(key) then key !in runs && key in runs' && runs'[key] == Opened
            else if key !in runs then key !in runs'
            else
              && key in runs'
              && if ev == SnapshotApply(key) then runs[key].Opened? && TakesScope(states[i], key, runs'[key])
                 else if ev.SeeClosed? && ev.key == key then
                   && runs[key].Closing? && ev.lease < |states[i].table.leases|
                   && states[i].table.leases[ev.lease].phase.Closed?
                   && runs'[key] == (if states[i].table.leases[ev.lease].failed then Failed(runs[key].snapshot)
                                     else Closing(runs[key].armed, runs[key].snapshot, runs[key].pending - {ev.lease}))
                 else if ev == FinishApply(key) then
                   && runs[key].Closing? && runs[key].pending == {}
                   && runs'[key] == Succeeded(runs[key].armed, runs[key].snapshot)
                 else if ev == AbortApply(key) then runs[key].Closing? && runs'[key] == Failed(runs[key].snapshot)
                 else runs'[key] == runs[key]
  {
    assert StepAt(states, events, i);
    if events[i] == SnapshotApply(key) {
      SnapshotTakesScope(states[i], key);
    }
  }

  /** The run holds exactly the leases of the table in its scope, and waits for all of them. */
  ghost predicate TakesScope(s: System, key: RunKey, r: Run) {
    && r.Closing? && r.pending == r.snapshot && (r.armed <==> key.scope in s.stops)
    && forall l: nat :: l in r.snapshot <==>
         l < |s.table.leases| && InTable(s.table.leases[l]) && Covers(key.scope, s.table.leases[l].owner)
  }

  lemma SnapshotTakesScope(s: System, key: RunKey)
    requires Enabled(s, SnapshotApply(key))
    ensures TakesScope(s, key, Next(s, SnapshotApply(key)).table.runs[key])
  {
  }

  /** Only an activation stores a stop, and none is ever taken back. */
  lemma StopsChangeExactly(states: seq<System>, events: seq<Event>, i: nat, scope: Scope)
    requires IsRun(states, events) && i < |events|
    ensures scope in states[i + 1].stops <==> scope in states[i].stops || events[i] == Activate(scope)
  {
    assert StepAt(states, events, i);
  }
}
