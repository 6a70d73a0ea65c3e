/** What each step does to a remote job and to a run of either control, and what it leaves alone. */
module RemoteJobChanges {
  import opened RemoteJobs
  import opened StopScope
  import WorkerStore

  /** Start, refusal, return, cancellation, removal and closing of a job each have their own step. */
  lemma JobChangesExactly(states: seq<System>, events: seq<Event>, i: nat, j: nat)
    requires IsRun(states, events) && i < |events| && j < |states[i].table.jobs|
    ensures j < |states[i + 1].table.jobs|
    ensures var x, y, ev := states[i].table.jobs[j], states[i + 1].table.jobs[j], events[i];
            && y.id == x.id && y.owner == x.owner
            && y.stage == (if ev == SecondCheck(j) then Started else if ev == SecondCheckFails(j) then Refused
                           else if ev == CallbackReturns(j) then Returned else x.stage)
            && (y.cancelled <==> x.cancelled || ev == SecondCheckFails(j) || (ev.CancelOne? && ev.job == j))
            && (y.removed <==> x.removed || ev == RemoveJob(j))
            && (y.done <==> x.done || ev == CloseJob(j))
  {
    assert StepAt(states, events, i);
  }

  /** When each of those steps may be taken. */
  lemma JobStepsInTurn(states: seq<System>, events: seq<Event>, i: nat, j: nat)
    requires IsRun(states, events) && i < |events| && j < |states[i].table.jobs|
    ensures var x, ev := states[i].table.jobs[j], events[i];
            && (ev == SecondCheck(j) ==> x.stage.Registered? && !Stopped(states[i].stops, x.owner))
            && (ev == SecondCheckFails(j) ==> x.stage.Registered?)
            && (ev == CallbackReturns(j) ==> x.stage.Started?)
            && (ev == RemoveJob(j) ==> (x.stage.Refused? || x.stage.Returned?) && !x.removed)
            && (ev == CloseJob(j) ==> x.removed && !x.done)
  {
    assert StepAt(states, events, i);
  }

  /** A registration adds one fresh job, for the lease its caller claimed and for the owner that lease names. */
  lemma JobsAppearExactly(states: seq<System>, events: seq<Event>, i: nat)
    requires IsRun(states, events) && i < |events|
    ensures var jobs, jobs', ev := states[i].table.jobs, states[i + 1].table.jobs, events[i];
            if ev.RegisterIt? then
              && ev.caller in states[i].claimed && states[i].claimed[ev.caller].1
              && |jobs'| == |jobs| + 1
              && var g := states[i].claimed[ev.caller].0.grant;
                 var owner := CaseRef(g.request.scope.organization, g.request.scope.tenant, g.request.scope.caseId);
                 jobs'[|jobs|] == Job(g.id, owner, Registered, false, false, false)
            else |jobs'| == |jobs|
  {
    assert StepAt(states, events, i);
  }

  /** Step `k` was a successful claim of this lease: with its token, in time, neither revoked nor claimed before. */
  ghost predicate ClaimedAt(states: seq<System>, events: seq<Event>, k: nat, caller: nat, g: WorkerStore.Grant)
    requires k < |events| && |states| == |events| + 1
  {
    && events[k].ClaimIt? && events[k].caller == caller && events[k].id in states[k].store.leases
    && var l := states[k].store.leases[events[k].id];
       && l.grant == g && events[k].token == g.token && events[k].now < g.expiresAt && !l.revoked && !l.consumed
  }

  lemma ClaimEnabledExactly(s: System, caller: nat, id: string, token: string, now: int)
    ensures Enabled(s, ClaimIt(caller, id, token, now)) <==>
            && caller !in s.claimed && id in s.store.leases && token == s.store.leases[id].grant.token
            && now < s.store.leases[id].grant.expiresAt && !s.store.leases[id].revoked && !s.store.leases[id].consumed
  {
  }

  lemma ClaimHolds(s: System, ev: Event)
    requires Enabled(s, ev) && ev.ClaimIt?
    ensures ev.id in s.store.leases && Next(s, ev).claimed[ev.caller].0.grant == s.store.leases[ev.id].grant
    ensures !Next(s, ev).claimed[ev.caller].1
  {
  }

  lemma {:induction false} CallersClaimed(states: seq<System>, events: seq<Event>, i: nat, caller: nat)
    requires IsRun(states, events) && i < |states| && caller in states[i].claimed
    ensures exists k: nat :: k < i && ClaimedAt(states, events, k, caller, states[i].claimed[caller].0.grant)
  {
    assert i > 0 && StepAt(states, events, i - 1);
    var ev := events[i - 1];
    if ev.ClaimIt? && ev.caller == caller {
      ClaimEnabledExactly(states[i - 1], caller, ev.id, ev.token, ev.now);
      ClaimHolds(states[i - 1], ev);
      assert ClaimedAt(states, events, i - 1, caller, states[i].claimed[caller].0.grant);
    } else {
      ClaimedBefore(states[i - 1], ev, caller);
      CallersClaimed(states, events, i - 1, caller);
    }
  }

  /** The first read of the store, by a caller that has claimed its lease, found no stop over the lease's case. */
  ghost predicate ClearedAt(states: seq<System>, events: seq<Event>, k: nat, caller: nat, g: WorkerStore.Grant)
    requires k < |events| && |states| == |events| + 1
  {
    && events[k] == FirstCheck(caller) && caller in states[k].claimed && states[k].claimed[caller].0.grant == g
    && !Stopped(states[k].stops, CaseRef(g.request.scope.organization, g.request.scope.tenant, g.request.scope.caseId))
  }

  lemma {:induction false} CallersCleared(states: seq<System>, events: seq<Event>, i: nat, caller: nat)
    requires IsRun(states, events) && i < |states| && caller in states[i].claimed && states[i].claimed[caller].1
    ensures exists k: nat :: k < i && ClearedAt(states, events, k, caller, states[i].claimed[caller].0.grant)
  {
    assert i > 0 && StepAt(states, events, i - 1);
    var ev := events[i - 1];
    if ev == FirstCheck(caller) {
      assert ClearedAt(states, events, i - 1, caller, states[i].claimed[caller].0.grant);
    } else if ev.ClaimIt? && ev.caller == caller {
      ClaimHolds(states[i - 1], ev);
      assert false;
    } else {
      ClaimedBefore(states[i - 1], ev, caller);
      CallersCleared(states, events, i - 1, caller);
    }
  }

  /** A job is registered for the lease its caller claimed, after the first read of the store. */
  lemma RegisteredAfterClaim(states: seq<System>, events: seq<Event>, i: nat)
    requires IsRun(states, events) && i < |events| && events[i].RegisterIt?
    ensures events[i].caller in states[i].claimed
    ensures var caller, g := events[i].caller, states[i].claimed[events[i].caller].0.grant;
            && (exists k: nat :: k < i && ClaimedAt(states, events, k, caller, g))
            && (exists k: nat :: k < i && ClearedAt(states, events, k, caller, g))
  {
    assert StepAt(states, events, i);
    CallersClaimed(states, events, i, events[i].caller);
    CallersCleared(states, events, i, events[i].caller);
  }

  /** The run holds exactly the jobs of the table in its scope, to be cancelled and awaited. */
  ghost predicate TakesScope(s: System, key: RunKey, r: Run) {
    && r.Working? && r.uncancelled == r.snapshot == r.unfinished && (r.armed <==> key.scope in s.stops)
    && forall j: nat :: j in r.snapshot <==>
         j < |s.table.jobs| && !s.table.jobs[j].removed && Covers(key.scope, s.table.jobs[j].owner)
  }

  lemma SnapshotTakesScope(s: System, key: RunKey)
    requires Enabled(s, SnapshotApply(key))
    ensures TakesScope(s, key, Next(s, SnapshotApply(key)).table.runs[key])
  {
  }

  /** A run opens once, cancels the jobs it took one by one, and only the cooperative one waits for them. */
  lemma RunChangesExactly(states: seq<System>, events: seq<Event>, i: nat, key: RunKey)
    requires IsRun(states, events) && i < |events|
    ensures var runs, runs', ev := states[i].table.runs, states[i + 1].table.runs, events[i];
            if ev == StartApply(key) then key !in runs && key in runs' && runs'[key] == Opened
            else if key !in runs then key !in runs'
            else key in runs' && RunChanges(states[i], ev, key, runs[key], runs'[key])
  {
    assert StepAt(states, events, i);
    if events[i] == SnapshotApply(key) {
      SnapshotTakesScope(states[i], key);
    }
  }

  ghost predicate RunChanges(s: System, ev: Event, key: RunKey, r: Run, r': Run) {
    if ev == SnapshotApply(key) then r.Opened? && TakesScope(s, key, r')
    else if ev.CancelOne? && ev.key == key then
      r.Working? && r' == Working(r.armed, r.snapshot, r.uncancelled - {ev.job}, r.unfinished)
    else if ev.SeeDone? && ev.key == key then
      && r.Working? && ev.job < |s.table.jobs| && s.table.jobs[ev.job].done
      && r' == Working(r.armed, r.snapshot, r.uncancelled, r.unfinished - {ev.job})
    else if ev == FinishApply(key) then
      && r.Working? && r.uncancelled == {} && (key.cooperative ==> r.unfinished == {})
      && r' == Succeeded(r.armed, r.snapshot)
    else if ev == AbortApply(key) then r.Working? && key.cooperative && r.uncancelled == {} && r' == Failed
    else r' == r
  }

  /** Only an activation stores a stop, and none is ever taken back. */
  lemma StopsChangeExactly(states: seq<System>, events: seq<Event>, i: nat, scope: Scope)
    requires IsRun(states, events) && i < |events|
    ensures scope in states[i + 1].stops <==> scope in states[i].stops || events[i] == Activate(scope)
  {
    assert StepAt(states, events, i);
  }
}
