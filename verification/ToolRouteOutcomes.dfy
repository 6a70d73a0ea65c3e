/** What the Submit calls of a run answer, told in terms of the events that made them. */
module ToolRouteOutcomes {
  import opened ToolRoute
  import opened ToolRouteRuns
  import opened Wrappers

  // ----- a receipt belongs to the intent it was asked for

  predicate HoldsRecord(l: Local) {
    || l.Ready? || l.Gating? || l.Granted? || l.Audited? || l.Sending? || l.Finishing? || l.Closing?
  }

  /** `l` works on a route with this binding; once it has answered, so does the store. */
  predicate OnBinding(s: System, l: Local, b: Binding) {
    && (HoldsRecord(l) ==> l.current.body.binding == b)
    && (Answer(l).Some? ==> s.store.Some? && s.store.value.body.binding == b)
  }

  /** `l` works for this intent. */
  predicate OnIntent(s: System, l: Local, intent: string) {
    && (l.Looking? || l.Resolving? ==> l.intent == intent)
    && (HoldsRecord(l) ==> l.current.body.binding.intentDigest == intent)
    && (Answer(l).Some? ==> s.store.Some? && s.store.value.body.binding.intentDigest == intent)
  }

  /** The binding of a stored record never changes. */
  lemma BindingStays(s: System, e: Event)
    requires StoreInv(s) && Enabled(s, e) && s.store.Some?
    ensures Next(s, e).store.Some? && Next(s, e).store.value.body.binding == s.store.value.body.binding
  {
    StoreStep(s, e);
    if Next(s, e).saved != s.saved {
      var r: Record :| Added(s, Next(s, e), r);
    }
  }

  /** Where a Submit's own step takes it, when it holds a record already. */
  lemma HolderStep(s: System, e: Event)
    requires Enabled(s, e) && e.pid in s.locals && HoldsRecord(s.locals[e.pid])
    ensures var l, l' := s.locals[e.pid], Next(s, e).locals[e.pid];
            && (HoldsRecord(l') ==> l'.current.body.binding == l.current.body.binding)
            && (Answer(l').Some? ==>
                  Next(s, e).store.Some? && Next(s, e).store.value.body.binding == l.current.body.binding)
  {
  }

  lemma BeginStep(s: System, e: Event)
    requires Enabled(s, e) && e.Begin?
    ensures OnBinding(Next(s, e), Next(s, e).locals[e.pid], e.candidate.body.binding)
  {
  }

  lemma LookupStep(s: System, e: Event)
    requires Enabled(s, e) && e.Lookup?
    ensures OnIntent(Next(s, e), Next(s, e).locals[e.pid], s.locals[e.pid].intent)
  {
  }

  /** A step of another Submit leaves `l` on its binding or intent. */
  lemma OthersKeepStore(s: System, e: Event, l: Local, b: Binding, intent: string)
    requires StoreInv(s) && Enabled(s, e)
    ensures OnBinding(s, l, b) ==> OnBinding(Next(s, e), l, b)
    ensures OnIntent(s, l, intent) ==> OnIntent(Next(s, e), l, intent)
  {
    if s.store.Some? {
      BindingStays(s, e);
    }
  }

  /** Every Submit that is under way has one next step of its own, and a finished one has none. */
  lemma OwnStep(s: System, e: Event)
    requires Enabled(s, e) && e.pid in s.locals
    ensures !s.locals[e.pid].Done?
    ensures s.locals[e.pid].Looking? ==> e.Lookup? || e.Fail?
    ensures s.locals[e.pid].Resolving? ==> e.Begin? || e.Fail?
    ensures e.Fail? ==> Next(s, e).locals[e.pid] == Done(Errored)
  {
  }

  lemma IntentStep(s: System, e: Event, p: nat, intent: string)
    requires StoreInv(s) && Enabled(s, e) && p in s.locals && OnIntent(s, s.locals[p], intent)
    ensures p in Next(s, e).locals && OnIntent(Next(s, e), Next(s, e).locals[p], intent)
  {
    if e.pid != p {
      StaysIn(s, e, p);
      OthersStay(s, e, p);
      OthersKeepStore(s, e, s.locals[p], NewRecordBinding(s), intent);
    } else {
      OwnStep(s, e);
      if HoldsRecord(s.locals[p]) {
        HolderStep(s, e);
        HolderGoesOn(s, e);
      } else if e.Lookup? {
        LookupStep(s, e);
      } else if e.Begin? {
        BeginStep(s, e);
        AfterBegin(s, e);
      }
    }
  }

  /** Any binding; the claims about intents do not depend on it. */
  function NewRecordBinding(s: System): Binding {
    if s.store.Some? then s.store.value.body.binding else Binding("", "", "", "", "", ("", 0), ("", 0))
  }

  lemma StaysIn(s: System, e: Event, p: nat)
    requires Enabled(s, e) && p in s.locals
    ensures p in Next(s, e).locals
  {
  }

  /** A Submit never goes back to looking or resolving. */
  lemma HolderGoesOn(s: System, e: Event)
    requires Enabled(s, e) && e.pid in s.locals && HoldsRecord(s.locals[e.pid])
    ensures !Next(s, e).locals[e.pid].Looking? && !Next(s, e).locals[e.pid].Resolving?
  {
  }

  lemma AfterBegin(s: System, e: Event)
    requires Enabled(s, e) && e.Begin?
    ensures !Next(s, e).locals[e.pid].Looking? && !Next(s, e).locals[e.pid].Resolving?
  {
  }

  lemma {:induction false} IntentOnRuns(states: seq<System>, events: seq<Event>, k: nat, i: nat, p: nat, intent: string)
    requires IsRun(states, events) && k < i < |states| && events[k] == Submit(p, intent)
    ensures p in states[i].locals && OnIntent(states[i], states[i].locals[p], intent)
    decreases i
  {
    if k == i - 1 {
      assert StepAt(states, events, k);
    } else {
      IntentOnRuns(states, events, k, i - 1, p, intent);
      IntentNext(states, events, i - 1, p, intent);
    }
  }

  lemma IntentNext(states: seq<System>, events: seq<Event>, i: nat, p: nat, intent: string)
    requires IsRun(states, events) && i < |events| && p in states[i].locals
             && OnIntent(states[i], states[i].locals[p], intent)
    ensures p in states[i + 1].locals && OnIntent(states[i + 1], states[i + 1].locals[p], intent)
  {
    assert StepAt(states, events, i);
    InvOnRuns(states, events, i);
    IntentStep(states[i], events[i], p, intent);
  }

  /** A receipt is only returned to a Submit of the intent that the stored route is for. */
  lemma AnsweredForItsIntent(states: seq<System>, events: seq<Event>, k: nat, i: nat, p: nat, intent: string)
    requires IsRun(states, events) && k < i < |states| && events[k] == Submit(p, intent)
    ensures p in states[i].locals
    ensures Answer(states[i].locals[p]).Some? ==>
              && Holds(states[i], Answer(states[i].locals[p]).value)
              && states[i].store.value.body.binding.intentDigest == intent
              && Answer(states[i].locals[p]).value.intentDigest == intent
  {
    IntentOnRuns(states, events, k, i, p, intent);
    InvOnRuns(states, events, i);
    if Answer(states[i].locals[p]).Some? {
      assert Holds(states[i], Answer(states[i].locals[p]).value);
    }
  }

  lemma BindingStep(s: System, e: Event, p: nat, b: Binding)
    requires StoreInv(s) && Enabled(s, e) && p in s.locals && OnBinding(s, s.locals[p], b)
    requires !s.locals[p].Looking? && !s.locals[p].Resolving?
    ensures p in Next(s, e).locals && OnBinding(Next(s, e), Next(s, e).locals[p], b)
    ensures !Next(s, e).locals[p].Looking? && !Next(s, e).locals[p].Resolving?
  {
    if e.pid != p {
      StaysIn(s, e, p);
      OthersStay(s, e, p);
      OthersKeepStore(s, e, s.locals[p], b, "");
    } else {
      OwnStep(s, e);
      HolderStep(s, e);
      HolderGoesOn(s, e);
    }
  }

  lemma {:induction false} BindingOnRuns(states: seq<System>, events: seq<Event>, k: nat, i: nat, p: nat,
                                         candidate: Record)
    requires IsRun(states, events) && k < i < |states| && events[k] == Begin(p, candidate)
    ensures p in states[i].locals && OnBinding(states[i], states[i].locals[p], candidate.body.binding)
    ensures !states[i].locals[p].Looking? && !states[i].locals[p].Resolving?
    decreases i
  {
    assert StepAt(states, events, i - 1);
    if k < i - 1 {
      BindingOnRuns(states, events, k, i - 1, p, candidate);
      InvOnRuns(states, events, i - 1);
      BindingStep(states[i - 1], events[i - 1], p, candidate.body.binding);
    } else {
      BeginStep(states[k], events[k]);
      AfterBegin(states[k], events[k]);
    }
  }

  /** A Submit that began a route, or found one begun, is only answered when the whole binding is its own. */
  lemma AnsweredForItsBinding(states: seq<System>, events: seq<Event>, k: nat, i: nat, p: nat, candidate: Record)
    requires IsRun(states, events) && k < i < |states| && events[k] == Begin(p, candidate)
    ensures p in states[i].locals
    ensures Answer(states[i].locals[p]).Some? ==>
              && Holds(states[i], Answer(states[i].locals[p]).value)
              && states[i].store.value.body.binding == candidate.body.binding
  {
    BindingOnRuns(states, events, k, i, p, candidate);
    InvOnRuns(states, events, i);
    if Answer(states[i].locals[p]).Some? {
      assert Holds(states[i], Answer(states[i].locals[p]).value);
    }
  }

  /** The connector is called only for the intent of the Submit that calls it. */
  lemma DispatchedForItsIntent(states: seq<System>, events: seq<Event>, k: nat, i: nat, p: nat, intent: string)
    requires IsRun(states, events) && k < i < |events| && events[k] == Submit(p, intent)
    requires events[i].Dispatch? && events[i].pid == p
    ensures |states[i + 1].calls| == 1 && states[i + 1].calls[0].pid == p
    ensures states[i + 1].calls[0].record.body.binding.intentDigest == intent
  {
    IntentOnRuns(states, events, k, i, p, intent);
    DispatchNeedsSavedRecord(states, events, i);
  }

  /** Looking the route up answers at once exactly when it is over and for the same intent. */
  lemma LookupAnswersExactly(states: seq<System>, events: seq<Event>, i: nat, p: nat)
    requires IsRun(states, events) && i < |events| && events[i] == Lookup(p)
    ensures p in states[i].locals && states[i].locals[p].Looking? && p in states[i + 1].locals
    ensures var store, l := states[i].store, states[i + 1].locals[p];
            var same := store.Some? && store.value.body.binding.intentDigest == states[i].locals[p].intent;
            && (Answer(l).Some? <==> same && Terminal(store.value.body.status))
            && (Answer(l).Some? ==> l.ending.Returned? && Answer(l) == store.value.body.receipt)
            && (l == Done(Errored) <==> store.Some? && !same)
            && (l.Finishing? <==> same && store.value.body.status.Dispatching?)
            && (l.Finishing? ==> l.current == store.value && l.status.Uncertain? && l.supplied.None?)
  {
    assert StepAt(states, events, i);
    InvOnRuns(states, events, i);
  }

  /** So does beginning it, for the whole binding; and a route that is not there is begun. */
  lemma BeginAnswersExactly(states: seq<System>, events: seq<Event>, i: nat, p: nat, candidate: Record)
    requires IsRun(states, events) && i < |events| && events[i] == Begin(p, candidate)
    ensures p in states[i + 1].locals
    ensures var store, l := states[i].store, states[i + 1].locals[p];
            var same := store.Some? && store.value.body.binding == candidate.body.binding;
            && (Answer(l).Some? <==> same && Terminal(store.value.body.status))
            && (Answer(l).Some? ==> l.ending.Returned? && Answer(l) == store.value.body.receipt)
            && (l == Done(Errored) <==> store.Some? && !same)
            && (l.Finishing? <==> same && store.value.body.status.Dispatching?)
            && (l.Finishing? ==> l.current == store.value && l.status.Uncertain? && l.supplied.None?)
            && (store.None? ==> l == Ready(candidate) && states[i + 1].store == Some(candidate))
  {
    assert StepAt(states, events, i);
    InvOnRuns(states, events, i);
  }

  // ----- where a receipt comes from

  /** The stage of a Submit fits the status of the record it holds. */
  predicate StageFits(l: Local) {
    && (l.Ready? ==> l.current.body.status.Pending?)
    && (l.Gating? || l.Granted? || l.Audited? ==> l.current.body.status.Authorizing?)
    && (l.Sending? ==> l.current.body.status.Dispatching?)
    && (l.Finishing? || l.Closing? ==> EndFits(l.current, l.status, l.supplied))
  }

  /** A supplied receipt is valid and decides the status; without one a dispatched route ends uncertain. */
  predicate EndFits(current: Record, status: Status, supplied: Option<Receipt>) {
    && Terminal(status)
    && (supplied.Some? ==>
          && current.body.status.Dispatching? && ValidReceipt(supplied.value, current.body.binding.intentDigest)
          && supplied.value.outcome == OutcomeOf(status))
    && (supplied.None? && current.body.status.Dispatching? ==> status.Uncertain?)
    && (supplied.None? && !current.body.status.Dispatching? ==> !status.Succeeded?)
  }

  lemma OutcomeRoundTrip(s: Status)
    requires Terminal(s)
    ensures StatusForOutcome(OutcomeOf(s)) == s
  {
  }

  lemma AnsweredFits(current: Record, response: Option<Receipt>, reason: string)
    requires current.body.status.Dispatching?
    ensures StageFits(Answered(current, response, reason))
    ensures Answered(current, response, reason).supplied
         == if response.Some? && ValidReceipt(response.value, current.body.binding.intentDigest) then response else None
  {
    if response.Some? && ValidReceipt(response.value, current.body.binding.intentDigest) {
      var s: Status :| Terminal(s) && response.value.outcome == OutcomeOf(s);
      OutcomeRoundTrip(s);
    }
  }

  lemma FoundFits(current: Record, holds: bool, otherwise: Local)
    requires StageFits(otherwise)
    ensures StageFits(Found(current, holds, otherwise))
  {
  }

  lemma StageStep(s: System, e: Event)
    requires Enabled(s, e) && (e.pid in s.locals ==> StageFits(s.locals[e.pid]))
    ensures StageFits(Next(s, e).locals[e.pid])
  {
    match e
    case Dispatch(p, response, reason) => AnsweredFits(s.locals[p].current, response, reason);
    case Lookup(p) =>
      if s.store.Some? {
        FoundFits(s.store.value, s.store.value.body.binding.intentDigest == s.locals[p].intent,
                  Resolving(s.locals[p].intent));
      }
    case Begin(p, candidate) => BeginFits(s, p, candidate);
    case _ => PlainStageStep(s, e);
  }

  lemma BeginFits(s: System, p: nat, candidate: Record)
    requires Enabled(s, Begin(p, candidate))
    ensures StageFits(Next(s, Begin(p, candidate)).locals[p])
  {
    if s.store.Some? && !Terminal(s.store.value.body.status) && !s.store.value.body.status.Dispatching? {
      assert StageFits(Proceed(s.store.value));
    }
  }

  lemma PlainStageStep(s: System, e: Event)
    requires Enabled(s, e) && !e.Dispatch? && !e.Lookup? && !e.Begin?
    requires e.pid in s.locals ==> StageFits(s.locals[e.pid])
    ensures StageFits(Next(s, e).locals[e.pid])
  {
  }

  lemma {:induction false} StagesOnRuns(states: seq<System>, events: seq<Event>, i: nat, p: nat)
    requires IsRun(states, events) && i < |states| && p in states[i].locals
    ensures StageFits(states[i].locals[p])
    decreases i
  {
    if i > 0 {
      assert StepAt(states, events, i - 1);
      if p in states[i - 1].locals {
        StagesOnRuns(states, events, i - 1, p);
      }
      if p == events[i - 1].pid {
        StageStep(states[i - 1], events[i - 1]);
      } else {
        OthersStay(states[i - 1], events[i - 1], p);
      }
    }
  }

  /** The connector answered this receipt in an earlier step. */
  ghost predicate Supplied(events: seq<Event>, i: nat, r: Receipt) {
    exists k: nat :: k < i && k < |events| && events[k].Dispatch? && events[k].response == Some(r)
  }

  predicate Supplies(l: Local) {
    (l.Finishing? || l.Closing?) && l.supplied.Some?
  }

  /** A Submit comes to hold a supplied receipt only by the connector's answer to it. */
  lemma SupplyStep(s: System, e: Event, p: nat)
    requires Enabled(s, e) && p in Next(s, e).locals && Supplies(Next(s, e).locals[p])
    ensures (e.Dispatch? && e.response == Next(s, e).locals[p].supplied)
            || (p in s.locals && Supplies(s.locals[p]) && s.locals[p].supplied == Next(s, e).locals[p].supplied)
  {
    if p != e.pid {
      OthersStay(s, e, p);
    }
  }

  lemma {:induction false} SuppliedOnRuns(states: seq<System>, events: seq<Event>, i: nat, p: nat)
    requires IsRun(states, events) && i < |states| && p in states[i].locals && Supplies(states[i].locals[p])
    ensures Supplied(events, i, states[i].locals[p].supplied.value)
    decreases i
  {
    assert StepAt(states, events, i - 1);
    SupplyStep(states[i - 1], events[i - 1], p);
    if !(events[i - 1].Dispatch? && events[i - 1].response == states[i].locals[p].supplied) {
      SuppliedOnRuns(states, events, i - 1, p);
      var k: nat :| k < i - 1 && events[k].Dispatch? && events[k].response == states[i].locals[p].supplied;
    }
  }

  /** A Submit about to write its terminal record has its completion audit on record. */
  lemma {:induction false} ClosingAudited(states: seq<System>, events: seq<Event>, i: nat, p: nat)
    requires IsRun(states, events) && i < |states| && p in states[i].locals && states[i].locals[p].Closing?
    ensures states[i].locals[p].auditId in states[i].audits
    decreases i
  {
    assert StepAt(states, events, i - 1);
    if events[i - 1].pid != p {
      OthersStay(states[i - 1], events[i - 1], p);
      ClosingAudited(states, events, i - 1, p);
      AuditsStay(states[i - 1], events[i - 1]);
    } else {
      ClosedNow(states[i - 1], events[i - 1]);
    }
  }

  lemma AuditsStay(s: System, e: Event)
    requires Enabled(s, e)
    ensures s.audits <= Next(s, e).audits
  {
  }

  lemma ClosedNow(s: System, e: Event)
    requires Enabled(s, e) && Next(s, e).locals[e.pid].Closing?
    ensures e.AuditCompletion? && Next(s, e).locals[e.pid].auditId in Next(s, e).audits
  {
  }

  /** How a terminal record and the one before it tell the end of a route. */
  predicate EndTold(b: Body, prior: Body, audits: set<string>, supplied: bool) {
    && b.receipt.Some? && b.receipt.value.intentDigest == b.binding.intentDigest
    && b.receipt.value.outcome == OutcomeOf(b.status)
    && b.completionAudit in audits && b.dispatchAudit == prior.dispatchAudit
    && (supplied || b.receipt.value == Receipt(b.binding.intentDigest, OutcomeOf(b.status), b.completionAudit))
    && (prior.status.Dispatching? ==> b.status.Uncertain? || supplied)
    && (!prior.status.Dispatching? ==> !b.status.Succeeded? && !b.status.Uncertain?)
  }

  /** The terminal record in the store tells how the route ended. */
  ghost predicate EndedWell(events: seq<Event>, i: nat, s: System) {
    && s.store.Some? && |s.saved| >= 2 && s.store.value.body.receipt.Some?
    && EndTold(s.store.value.body, s.saved[|s.saved| - 2].body, s.audits,
               Supplied(events, i, s.store.value.body.receipt.value))
  }

  lemma ToldLater(b: Body, prior: Body, audits: set<string>, more: set<string>, supplied: bool, later: bool)
    requires EndTold(b, prior, audits, supplied) && audits <= more && (supplied ==> later)
    ensures EndTold(b, prior, more, later)
  {
  }

  lemma RecordTells(l: Local, now: int, audits: set<string>, supplied: bool)
    requires l.Closing? && StageFits(l) && ValidTransition(l.current, NextRecord(l, now)) && l.auditId in audits
    requires l.supplied.Some? ==> supplied
    requires !l.current.body.status.Dispatching? ==> l.current.body.dispatchAudit == ""
    ensures EndTold(NextRecord(l, now).body, l.current.body, audits, supplied)
  {
  }

  predicate Ends(e: Event) {
    e.SaveTerminal? || e.LoseTerminal?
  }

  /** Only the two terminal saves end a route, and only by winning the swap. */
  lemma EndedBy(s: System, e: Event)
    requires StoreInv(s) && Enabled(s, e)
    requires Next(s, e).store.Some? && Terminal(Next(s, e).store.value.body.status)
    requires s.store.None? || !Terminal(s.store.value.body.status)
    ensures Ends(e) && s.store == Some(s.locals[e.pid].current)
    ensures Next(s, e).store == Some(NextRecord(s.locals[e.pid], e.now))
    ensures Next(s, e).saved == s.saved + [NextRecord(s.locals[e.pid], e.now)]
  {
  }

  /** Before its dispatch a record carries no dispatch audit. */
  lemma {:induction false} NoAuditBefore(saved: seq<Record>, m: nat)
    requires LegalHistory(saved) && StartsClean(saved) && m < |saved|
    ensures saved[m].body.status.Pending? || saved[m].body.status.Authorizing? ==> saved[m].body.dispatchAudit == ""
  {
    if m > 0 {
      assert ValidTransition(saved[m - 1], saved[m]);
    }
  }

  predicate StartsClean(saved: seq<Record>) {
    saved != [] ==> saved[0].body.status.Pending? && saved[0].body.dispatchAudit == ""
  }

  lemma {:induction false} StartsCleanOnRuns(states: seq<System>, events: seq<Event>, i: nat)
    requires IsRun(states, events) && i < |states|
    ensures StartsClean(states[i].saved)
  {
    if i > 0 {
      StartsCleanOnRuns(states, events, i - 1);
      assert StepAt(states, events, i - 1);
      InvOnRuns(states, events, i - 1);
      FirstIsNew(states[i - 1], events[i - 1]);
    }
  }

  lemma FirstIsNew(s: System, e: Event)
    requires StoreInv(s) && Enabled(s, e) && StartsClean(s.saved)
    ensures StartsClean(Next(s, e).saved)
  {
    if s.saved != [] {
      StoreInvPreserved(s, e);
      assert s.saved[0] == Next(s, e).saved[0];
    }
  }

  /**
    In every run a finished route names its own intent and outcome. It succeeded only by the
    connector's answer; once dispatched it ends by that answer or as uncertain; and what was never
    dispatched neither succeeds nor is uncertain.
   */
  lemma {:induction false} RouteEndsAsTold(states: seq<System>, events: seq<Event>, i: nat)
    requires IsRun(states, events) && i < |states|
    requires states[i].store.Some? && Terminal(states[i].store.value.body.status)
    ensures EndedWell(events, i, states[i])
    decreases i
  {
    assert StepAt(states, events, i - 1);
    InvOnRuns(states, events, i - 1);
    var s, e := states[i - 1], events[i - 1];
    if s.store.Some? && Terminal(s.store.value.body.status) {
      RouteEndsAsTold(states, events, i - 1);
      StillEnded(states, events, i);
    } else {
      EndedNow(states, events, i);
    }
  }

  lemma StillEnded(states: seq<System>, events: seq<Event>, i: nat)
    requires IsRun(states, events) && 0 < i < |states| && EndedWell(events, i - 1, states[i - 1])
    requires Terminal(states[i - 1].store.value.body.status)
    ensures EndedWell(events, i, states[i])
  {
    var s, e := states[i - 1], events[i - 1];
    assert StepAt(states, events, i - 1);
    InvOnRuns(states, events, i - 1);
    TerminalStays(s, e);
    AuditsStay(s, e);
    EndedHistory(s, e);
    var r := s.store.value.body.receipt.value;
    LaterSupplied(events, i - 1, r);
    ToldLater(s.store.value.body, s.saved[|s.saved| - 2].body, s.audits, states[i].audits,
              Supplied(events, i - 1, r), Supplied(events, i, r));
  }

  lemma EndedHistory(s: System, e: Event)
    requires StoreInv(s) && Enabled(s, e) && s.store.Some? && Terminal(s.store.value.body.status)
    ensures Next(s, e).saved == s.saved
  {
    StoreStep(s, e);
    if r: Record :| Added(s, Next(s, e), r) {
      assert false;
    }
  }

  lemma LaterSupplied(events: seq<Event>, i: nat, r: Receipt)
    ensures Supplied(events, i, r) ==> Supplied(events, i + 1, r)
  {
    if Supplied(events, i, r) {
      var k: nat :| k < i && k < |events| && events[k].Dispatch? && events[k].response == Some(r);
    }
  }

  /** What is known of the Submit that is about to end the route. */
  lemma EnderHolds(states: seq<System>, events: seq<Event>, i: nat, p: nat)
    requires IsRun(states, events) && i < |events| && p in states[i].locals && states[i].locals[p].Closing?
    requires states[i].store == Some(states[i].locals[p].current)
    ensures var l := states[i].locals[p];
            && StageFits(l) && l.auditId in states[i].audits
            && (l.supplied.Some? ==> Supplied(events, i + 1, l.supplied.value))
            && (!l.current.body.status.Dispatching? && !Terminal(l.current.body.status) ==>
                  l.current.body.dispatchAudit == "")
  {
    var s, l := states[i], states[i].locals[p];
    InvOnRuns(states, events, i);
    StagesOnRuns(states, events, i, p);
    ClosingAudited(states, events, i, p);
    StartsCleanOnRuns(states, events, i);
    NoAuditBefore(s.saved, |s.saved| - 1);
    if l.supplied.Some? {
      SuppliedNow(states, events, i + 1, p);
    }
  }

  lemma EndedNow(states: seq<System>, events: seq<Event>, i: nat)
    requires IsRun(states, events) && 0 < i < |states|
    requires states[i].store.Some? && Terminal(states[i].store.value.body.status)
    requires states[i - 1].store.None? || !Terminal(states[i - 1].store.value.body.status)
    ensures EndedWell(events, i, states[i])
  {
    var s, e := states[i - 1], events[i - 1];
    assert StepAt(states, events, i - 1);
    assert StoreInv(s) by { InvOnRuns(states, events, i - 1); }
    EndedBy(s, e);
    EnderHolds(states, events, i - 1, e.pid);
    EndStep(s, e, Supplied(events, i, FinalOf(s.locals[e.pid])));
  }

  function FinalOf(l: Local): Receipt
    requires l.Closing?
  {
    FinalReceipt(l.current, l.status, l.supplied, l.auditId)
  }

  lemma EndStep(s: System, e: Event, supplied: bool)
    requires StoreInv(s) && Enabled(s, e) && Ends(e) && s.store == Some(s.locals[e.pid].current)
    requires var l := s.locals[e.pid];
             && StageFits(l) && l.auditId in s.audits && (l.supplied.Some? ==> supplied)
             && (!l.current.body.status.Dispatching? ==> l.current.body.dispatchAudit == "")
    ensures var t := Next(s, e);
            && t.store.Some? && |t.saved| >= 2 && t.store.value.body.receipt == Some(FinalOf(s.locals[e.pid]))
            && EndTold(t.store.value.body, t.saved[|t.saved| - 2].body, t.audits, supplied)
  {
    RecordTells(s.locals[e.pid], e.now, s.audits, supplied);
    EndSaved(s, e);
  }

  lemma EndSaved(s: System, e: Event)
    requires StoreInv(s) && Enabled(s, e) && Ends(e) && s.store == Some(s.locals[e.pid].current)
    ensures var t, l := Next(s, e), s.locals[e.pid];
            && t.store == Some(NextRecord(l, e.now)) && t.audits == s.audits && |t.saved| >= 2
            && t.saved[|t.saved| - 2] == l.current
  {
  }

  lemma SuppliedNow(states: seq<System>, events: seq<Event>, i: nat, p: nat)
    requires IsRun(states, events) && 0 < i < |states| && p in states[i - 1].locals && Supplies(states[i - 1].locals[p])
    ensures Supplied(events, i, states[i - 1].locals[p].supplied.value)
  {
    SuppliedOnRuns(states, events, i - 1, p);
    LaterSupplied(events, i - 1, states[i - 1].locals[p].supplied.value);
  }

  // ----- what a dispatch and a refusal carry

  ghost predicate Given(events: seq<Event>, i: nat, p: nat, g: Grant) {
    exists k: nat :: k < i && k < |events| && events[k] == Authorize(p, g)
  }

  ghost predicate AuditedBefore(events: seq<Event>, i: nat, p: nat, id: string) {
    exists k: nat :: k < i && k < |events| && events[k] == AuditDispatch(p, id)
  }

  predicate Carries(b: Body, g: Grant) {
    b.preDispatch == g.decision && b.approvalRevision == g.approvalRevision && b.approvalFingerprint == g.fingerprint
  }

  /** The grant and audit a Submit holds were given to it before. */
  ghost predicate FromGate(events: seq<Event>, i: nat, p: nat, l: Local) {
    && (l.Granted? || l.Audited? ==> Given(events, i, p, l.grant))
    && (l.Audited? ==> AuditedBefore(events, i, p, l.auditId))
    && (l.Sending? ==> DispatchedOn(events, i, p, l.current))
  }

  ghost predicate DispatchedOn(events: seq<Event>, i: nat, p: nat, r: Record) {
    && AuditedBefore(events, i, p, r.body.dispatchAudit)
    && exists g: Grant :: Given(events, i, p, g) && Carries(r.body, g)
  }

  lemma LaterGate(events: seq<Event>, i: nat, p: nat, l: Local)
    requires FromGate(events, i, p, l)
    ensures FromGate(events, i + 1, p, l)
  {
    if l.Granted? || l.Audited? {
      LaterGiven(events, i, p, l.grant);
    }
    if l.Audited? {
      LaterAudited(events, i, p, l.auditId);
    }
    if l.Sending? {
      LaterDispatch(events, i, p, l.current);
    }
  }

  lemma LaterGiven(events: seq<Event>, i: nat, p: nat, g: Grant)
    requires Given(events, i, p, g)
    ensures Given(events, i + 1, p, g)
  {
    var k: nat :| k < i && k < |events| && events[k] == Authorize(p, g);
  }

  lemma LaterAudited(events: seq<Event>, i: nat, p: nat, id: string)
    requires AuditedBefore(events, i, p, id)
    ensures AuditedBefore(events, i + 1, p, id)
  {
    var k: nat :| k < i && k < |events| && events[k] == AuditDispatch(p, id);
  }

  lemma LaterDispatch(events: seq<Event>, i: nat, p: nat, r: Record)
    requires DispatchedOn(events, i, p, r)
    ensures DispatchedOn(events, i + 1, p, r)
  {
    LaterAudited(events, i, p, r.body.dispatchAudit);
    var g: Grant :| Given(events, i, p, g) && Carries(r.body, g);
    LaterGiven(events, i, p, g);
  }

  /** How a Submit comes to hold a grant, an audit or a dispatching record. */
  lemma GateStep(s: System, e: Event)
    requires Enabled(s, e)
    ensures var l' := Next(s, e).locals[e.pid];
            && (l'.Granted? ==> e == Authorize(e.pid, l'.grant))
            && (l'.Audited? ==>
                  e == AuditDispatch(e.pid, l'.auditId) && s.locals[e.pid].Granted?
                  && s.locals[e.pid].grant == l'.grant)
            && (l'.Sending? ==>
                  && e.SaveDispatching? && s.locals[e.pid].Audited?
                  && l'.current.body.dispatchAudit == s.locals[e.pid].auditId
                  && Carries(l'.current.body, s.locals[e.pid].grant))
  {
  }

  lemma {:induction false} GateOnRuns(states: seq<System>, events: seq<Event>, i: nat, p: nat)
    requires IsRun(states, events) && i < |states| && p in states[i].locals
    ensures FromGate(events, i, p, states[i].locals[p])
    decreases i
  {
    if i > 0 {
      var s, e := states[i - 1], events[i - 1];
      assert StepAt(states, events, i - 1);
      if p in s.locals {
        GateOnRuns(states, events, i - 1, p);
        LaterGate(events, i - 1, p, s.locals[p]);
      }
      if p == e.pid {
        GateStep(s, e);
      } else {
        OthersStay(s, e, p);
      }
    }
  }

  /** Every connector call carries a grant the gate gave to that Submit, and its own dispatch audit. */
  lemma DispatchCarriesItsGrant(states: seq<System>, events: seq<Event>, i: nat)
    requires IsRun(states, events) && i < |events| && events[i].Dispatch?
    ensures |states[i + 1].calls| == 1 && states[i + 1].calls[0].pid == events[i].pid
    ensures DispatchedOn(events, i, events[i].pid, states[i + 1].calls[0].record)
  {
    DispatchNeedsSavedRecord(states, events, i);
    GateOnRuns(states, events, i, events[i].pid);
  }

  /** The end of a refused route, and of its record, still carries the grant. */
  predicate EndCarries(s: System, l: Local, g: Grant) {
    && (l.Finishing? || l.Closing? || l.Done?)
    && (l.Finishing? || l.Closing? ==> Carries(l.bound, g))
    && (Answer(l).Some? ==> s.store.Some? && Terminal(s.store.value.body.status) && Carries(s.store.value.body, g))
  }

  lemma EndCarriesStep(s: System, e: Event, p: nat, g: Grant)
    requires StoreInv(s) && Enabled(s, e) && p in s.locals && EndCarries(s, s.locals[p], g)
    ensures p in Next(s, e).locals && EndCarries(Next(s, e), Next(s, e).locals[p], g)
  {
    if e.pid == p {
      OwnStep(s, e);
      OwnEnd(s, e, g);
    } else {
      StaysIn(s, e, p);
      OthersStay(s, e, p);
      if Answer(s.locals[p]).Some? {
        TerminalStays(s, e);
      }
    }
  }

  lemma OwnEnd(s: System, e: Event, g: Grant)
    requires Enabled(s, e) && e.pid in s.locals && !s.locals[e.pid].Done? && EndCarries(s, s.locals[e.pid], g)
    ensures EndCarries(Next(s, e), Next(s, e).locals[e.pid], g)
  {
  }

  /** A refusal after the gate had granted is recorded with that grant. */
  lemma {:induction false} RefusalKeepsItsGrant(states: seq<System>, events: seq<Event>, k: nat, i: nat, p: nat)
    requires IsRun(states, events) && k < i < |states| && events[k].Refuse? && events[k].pid == p
    requires p in states[k].locals && states[k].locals[p].Granted?
    ensures p in states[i].locals && EndCarries(states[i], states[i].locals[p], states[k].locals[p].grant)
    decreases i
  {
    assert StepAt(states, events, i - 1);
    if k < i - 1 {
      RefusalKeepsItsGrant(states, events, k, i - 1, p);
      InvOnRuns(states, events, i - 1);
      EndCarriesStep(states[i - 1], events[i - 1], p, states[k].locals[p].grant);
    }
  }

  // ----- what a route ends with is what happened to it

  predicate Ending(l: Local) {
    l.Finishing? || l.Closing?
  }

  /** The outcomes a connector may report. */
  predicate Known(outcome: string) {
    outcome in {"succeeded", "denied", "canceled", "timeout", "failed", "uncertain"}
  }

  /** The step that sent a Submit to its end, and the status, reason and error that this step gives. */
  predicate Causes(e: Event, l: Local)
    requires Ending(l)
  {
    match e
    case Refuse(_, status, reason, failing) =>
      l.status == status && l.reason == reason && l.failing == failing && l.supplied.None?
    case Dispatch(_, response, reason) =>
      && l.reason == reason && !l.failing
      && if response.Some? && response.value.intentDigest == l.current.body.binding.intentDigest
            && Known(response.value.outcome)
         then l.supplied == response && OutcomeOf(l.status) == response.value.outcome
         else l.supplied.None? && l.status.Uncertain?
    case Lookup(_) => l.status.Uncertain? && l.reason == "dispatch_receipt_missing" && l.supplied.None? && !l.failing
    case Begin(_, _) => l.status.Uncertain? && l.reason == "dispatch_receipt_missing" && l.supplied.None? && !l.failing
    case _ => false
  }

  ghost predicate Caused(events: seq<Event>, i: nat, p: nat, l: Local)
    requires Ending(l)
  {
    exists k: nat | k < i && k < |events| :: events[k].pid == p && Causes(events[k], l)
  }

  lemma KnownExactly(outcome: string, intent: string, r: Receipt)
    requires r.outcome == outcome
    ensures ValidReceipt(r, intent) <==> r.intentDigest == intent && Known(outcome)
    ensures Known(outcome) ==> OutcomeOf(StatusForOutcome(outcome)) == outcome
  {
    assert OutcomeOf(Succeeded) == "succeeded" && OutcomeOf(Denied) == "denied" && OutcomeOf(Canceled) == "canceled";
    assert OutcomeOf(Timeout) == "timeout" && OutcomeOf(Failed) == "failed" && OutcomeOf(Uncertain) == "uncertain";
  }

  /** A Submit turns to its end by such a step; the completion audit keeps what it found. */
  lemma CauseStep(s: System, e: Event)
    requires Enabled(s, e) && Ending(Next(s, e).locals[e.pid])
    ensures var l := Next(s, e).locals[e.pid];
            if e.AuditCompletion? then
              && s.locals[e.pid].Finishing?
              && var f := s.locals[e.pid];
                 && l.status == f.status && l.reason == f.reason && l.supplied == f.supplied && l.failing == f.failing
                 && l.current == f.current
            else Causes(e, l)
  {
    if e.Dispatch? && e.response.Some? {
      KnownExactly(e.response.value.outcome, s.locals[e.pid].current.body.binding.intentDigest, e.response.value);
    }
  }

  lemma {:induction false} CausedOnRuns(states: seq<System>, events: seq<Event>, i: nat, p: nat)
    requires IsRun(states, events) && i < |states| && p in states[i].locals && Ending(states[i].locals[p])
    ensures Caused(events, i, p, states[i].locals[p])
    decreases i
  {
    var e, l := events[i - 1], states[i].locals[p];
    assert StepAt(states, events, i - 1);
    if e.pid != p {
      OthersStay(states[i - 1], e, p);
      CausedOnRuns(states, events, i - 1, p);
      LaterCaused(events, i - 1, p, l, l);
    } else {
      CauseStep(states[i - 1], e);
      if e.AuditCompletion? {
        CausedOnRuns(states, events, i - 1, p);
        LaterCaused(events, i - 1, p, states[i - 1].locals[p], l);
      }
    }
  }

  lemma LaterCaused(events: seq<Event>, i: nat, p: nat, f: Local, l: Local)
    requires Ending(f) && Ending(l) && Caused(events, i, p, f)
    requires l.status == f.status && l.reason == f.reason && l.supplied == f.supplied && l.failing == f.failing
    requires l.current == f.current
    ensures Caused(events, i + 1, p, l)
  {
    var k: nat :| k < i && k < |events| && events[k].pid == p && Causes(events[k], f);
    assert Causes(events[k], l);
  }

  /**
    In every run a terminal save that wins writes the status and the reason of the step that ended its Submit, and
    answers with the receipt it wrote, beside an error exactly when that step asked for one. One that loses
    changes nothing and answers with an error, as does one whose answer is lost.
   */
  lemma EndsByItsCause(states: seq<System>, events: seq<Event>, i: nat)
    requires IsRun(states, events) && i < |events| && Ends(events[i])
    ensures events[i].pid in states[i].locals && states[i].locals[events[i].pid].Closing?
    ensures var s, t, p := states[i], states[i + 1], events[i].pid;
            var l := s.locals[p];
            && Caused(events, i, p, l) && p in t.locals
            && if s.store != Some(l.current) then t.store == s.store && t.locals[p] == Done(Errored)
               else
                 && t.store.Some? && t.store.value.body.status == l.status && t.store.value.body.reason == l.reason
                 && t.store.value.body.receipt.Some?
                 && var r := t.store.value.body.receipt.value;
                    t.locals[p].Done? && t.locals[p].ending == (if events[i].LoseTerminal? then Errored
                                                 else if l.failing then ReturnedWithError(r) else Returned(r))
  {
    assert StepAt(states, events, i);
    CausedOnRuns(states, events, i, events[i].pid);
  }

  /** What the two saves before the end write over the record their Submit holds, where they win. */
  lemma SavesExactly(states: seq<System>, events: seq<Event>, i: nat)
    requires IsRun(states, events) && i < |events| && (events[i].SaveAuthorizing? || events[i].SaveDispatching?)
    ensures var s, t, e := states[i], states[i + 1], events[i];
            && e.pid in s.locals && e.pid in t.locals
            && var l := s.locals[e.pid];
               && (e.SaveAuthorizing? ==> l.Ready? && l.current.body.status.Pending?)
               && (e.SaveDispatching? ==> l.Audited?)
               && if s.store != Some(l.current) then t.store == s.store && t.locals[e.pid] == Done(Errored)
                  else t.store.Some? && Advanced(l, e, l.current.body, t.store.value.body)
                       && t.locals[e.pid] == (if e.SaveAuthorizing? then Gating(t.store.value)
                                              else Sending(t.store.value))
  {
    assert StepAt(states, events, i);
  }

  /** One revision on, at the time of the save; a dispatch also names its audit and the grant it goes out under. */
  predicate Advanced(l: Local, e: Event, b: Body, b': Body)
    requires (e.SaveAuthorizing? && l.Ready?) || (e.SaveDispatching? && l.Audited?)
  {
    && b'.binding == b.binding && b'.createdAt == b.createdAt && b'.updatedAt == e.now && b'.revision == b.revision + 1
    && b'.receipt == b.receipt && b'.completionAudit == b.completionAudit
    && if e.SaveAuthorizing? then
         && b'.status.Authorizing? && b'.reason == "authorization_started" && b'.dispatchAudit == b.dispatchAudit
         && b'.preDispatch == b.preDispatch && b'.approvalRevision == b.approvalRevision
         && b'.approvalFingerprint == b.approvalFingerprint
       else
         && b'.status.Dispatching? && b'.reason == "dispatch_started" && b'.dispatchAudit == l.auditId
         && b'.preDispatch == l.grant.decision && b'.approvalRevision == l.grant.approvalRevision
         && b'.approvalFingerprint == l.grant.fingerprint
  }
}
