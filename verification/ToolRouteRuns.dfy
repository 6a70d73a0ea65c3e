/** Any number of Submit calls for one operation, interleaved and crashing at any point. */
module ToolRouteRuns {
  import opened ToolRoute
  import opened Wrappers

  /** How a finished Submit ended; `Errored` also stands for a crash. */
  datatype Ending = Returned(receipt: Receipt) | ReturnedWithError(receipt: Receipt) | Errored

  /** Where one Submit stands, with the record it holds. */
  datatype Local =
    | Looking(intent: string)
    | Resolving(intent: string)
    | Ready(current: Record)
    | Gating(current: Record)
    | Granted(current: Record, grant: Grant)
    | Audited(current: Record, grant: Grant, auditId: string)
    | Sending(current: Record)
    | Finishing(current: Record, bound: Body, status: Status, reason: string, supplied: Option<Receipt>, failing: bool)
    | Closing(current: Record, bound: Body, status: Status, reason: string, supplied: Option<Receipt>, failing: bool,
              auditId: string)
    | Done(ending: Ending)

  /** A call of the connector: the Submit that made it and the record it held. */
  datatype Call = Call(pid: nat, record: Record)

  /** `saved` lists every record the store ever held, `audits` every audit event appended. */
  datatype System = System(store: Option<Record>, locals: map<nat, Local>, saved: seq<Record>, audits: set<string>,
                           calls: seq<Call>)

  /**
    The steps of the Submit calls. `Fail` is an error or a crash; `LoseTerminal` is a terminal save
    that may reach the store although its caller sees an error.
   */
  datatype Event =
    | Submit(pid: nat, intent: string)
    | Lookup(pid: nat)
    | Begin(pid: nat, candidate: Record)
    | Refuse(pid: nat, status: Status, reason: string, failing: bool)
    | SaveAuthorizing(pid: nat, now: int)
    | Authorize(pid: nat, grant: Grant)
    | AuditDispatch(pid: nat, auditId: string)
    | SaveDispatching(pid: nat, now: int)
    | Dispatch(pid: nat, response: Option<Receipt>, reason: string)
    | AuditCompletion(pid: nat, auditId: string)
    | SaveTerminal(pid: nat, now: int)
    | LoseTerminal(pid: nat, now: int)
    | Fail(pid: nat)

  /** What a Submit does with a record it found in the store. */
  function Found(current: Record, bindingHolds: bool, otherwise: Local): Local {
    if !bindingHolds then Done(Errored)
    else if Terminal(current.body.status) then
      Done(if current.body.receipt.Some? then Returned(current.body.receipt.value) else Errored)
    else if current.body.status.Dispatching? then
      Finishing(current, current.body, Uncertain, "dispatch_receipt_missing", None, false)
    else otherwise
  }

  /** The record a Submit would write next. */
  function NextRecord(l: Local, now: int): Record
    requires l.Ready? || l.Audited? || l.Closing?
  {
    match l
    case Ready(current) => AuthorizingRecord(current, now)
    case Audited(current, grant, auditId) => DispatchingRecord(current, grant, auditId, now)
    case Closing(current, bound, status, reason, supplied, _, auditId) =>
      TerminalRecord(current, bound, status, reason, supplied, auditId, now)
  }

  predicate Enabled(s: System, e: Event) {
    match e
    case Submit(p, _) => p !in s.locals
    case Fail(p) => p in s.locals && !s.locals[p].Done?
    case Lookup(p) => p in s.locals && s.locals[p].Looking?
    case Begin(p, candidate) =>
      && p in s.locals && s.locals[p].Resolving? && candidate.body.binding.intentDigest == s.locals[p].intent
      && candidate == NewRecord(candidate.body.binding, candidate.body.createdAt)
    case Refuse(p, status, _, _) =>
      && p in s.locals && (s.locals[p].Ready? || s.locals[p].Gating? || s.locals[p].Granted?)
      && Terminal(status) && !status.Succeeded?
    case SaveAuthorizing(p, now) =>
      && p in s.locals && s.locals[p].Ready? && s.locals[p].current.body.status.Pending?
      && ValidTransition(s.locals[p].current, NextRecord(s.locals[p], now))
    case Authorize(p, grant) => p in s.locals && s.locals[p].Gating? && grant.decision != "" && grant.fingerprint != ""
    case AuditDispatch(p, auditId) => p in s.locals && s.locals[p].Granted? && auditId != ""
    case SaveDispatching(p, now) =>
      p in s.locals && s.locals[p].Audited? && ValidTransition(s.locals[p].current, NextRecord(s.locals[p], now))
    case Dispatch(p, response, _) => p in s.locals && s.locals[p].Sending?
    case AuditCompletion(p, auditId) => p in s.locals && s.locals[p].Finishing? && auditId != ""
    case SaveTerminal(p, now) =>
      p in s.locals && s.locals[p].Closing? && ValidTransition(s.locals[p].current, NextRecord(s.locals[p], now))
    case LoseTerminal(p, now) =>
      p in s.locals && s.locals[p].Closing? && ValidTransition(s.locals[p].current, NextRecord(s.locals[p], now))
  }

  function At(s: System, p: nat, l: Local): System {
    s.(locals := s.locals[p := l])
  }

  /** A compare-and-swap by `p`: on success the store holds `next` and `p` goes on as `won`. */
  function Swap(s: System, p: nat, prior: Record, next: Record, won: Local): System {
    var (store, saved) := SaveRecord(s.store, prior, next);
    if saved then At(s, p, won).(store := store, saved := s.saved + [next]) else At(s, p, Done(Errored))
  }

  function Proceed(current: Record): Local {
    if current.body.status.Pending? then Ready(current) else Gating(current)
  }

  function BoundBy(l: Local): Body
    requires l.Ready? || l.Gating? || l.Granted?
  {
    if l.Granted?
    then l.current.body.(preDispatch := l.grant.decision, approvalRevision := l.grant.approvalRevision,
                         approvalFingerprint := l.grant.fingerprint)
    else l.current.body
  }

  /** What follows the connector's answer: an unusable one leaves the outcome uncertain. */
  function Answered(current: Record, response: Option<Receipt>, reason: string): Local {
    if response.Some? && ValidReceipt(response.value, current.body.binding.intentDigest)
    then Finishing(current, current.body, StatusForOutcome(response.value.outcome), reason, response, false)
    else Finishing(current, current.body, Uncertain, reason, None, false)
  }

  function Next(s: System, e: Event): System
    requires Enabled(s, e)
  {
    match e
    case Submit(p, intent) => At(s, p, Looking(intent))
    case Fail(p) => At(s, p, Done(Errored))
    case Lookup(p) =>
      var intent := s.locals[p].intent;
      At(s, p, if s.store.None? then Resolving(intent)
               else Found(s.store.value, s.store.value.body.binding.intentDigest == intent, Resolving(intent)))
    case Begin(p, candidate) =>
      var (current, replayed) := BeginRecord(s.store, candidate);
      if replayed then At(s, p, Found(current, current.body.binding == candidate.body.binding, Proceed(current)))
      else At(s, p, Ready(current)).(store := Some(current), saved := s.saved + [current])
    case Refuse(p, status, reason, failing) =>
      At(s, p, Finishing(s.locals[p].current, BoundBy(s.locals[p]), status, reason, None, failing))
    case SaveAuthorizing(p, now) =>
      var next := NextRecord(s.locals[p], now);
      Swap(s, p, s.locals[p].current, next, Gating(next))
    case Authorize(p, grant) => At(s, p, Granted(s.locals[p].current, grant))
    case AuditDispatch(p, auditId) =>
      At(s, p, Audited(s.locals[p].current, s.locals[p].grant, auditId)).(audits := s.audits + {auditId})
    case SaveDispatching(p, now) =>
      var next := NextRecord(s.locals[p], now);
      Swap(s, p, s.locals[p].current, next, Sending(next))
    case Dispatch(p, response, reason) =>
      At(s, p, Answered(s.locals[p].current, response, reason)).(calls := s.calls + [Call(p, s.locals[p].current)])
    case AuditCompletion(p, auditId) =>
      var l := s.locals[p];
      At(s, p, Closing(l.current, l.bound, l.status, l.reason, l.supplied, l.failing,
                       auditId)).(audits := s.audits + {auditId})
    case SaveTerminal(p, now) =>
      var l := s.locals[p];
      var next := NextRecord(l, now);
      var receipt := FinalReceipt(l.current, l.status, l.supplied, l.auditId);
      Swap(s, p, l.current, next, Done(if l.failing then ReturnedWithError(receipt) else Returned(receipt)))
    case LoseTerminal(p, now) => Swap(s, p, s.locals[p].current, NextRecord(s.locals[p], now), Done(Errored))
  }

  /** Step `i` is that of its enabled event. */
  ghost predicate StepAt(states: seq<System>, events: seq<Event>, i: nat)
    requires i < |events| && |states| == |events| + 1
  {
    Enabled(states[i], events[i]) && states[i + 1] == Next(states[i], events[i])
  }

  ghost predicate IsRun(states: seq<System>, events: seq<Event>) {
    && |states| == |events| + 1
    && states[0] == System(None, map[], [], {}, [])
    && forall i | 0 <= i < |events| :: StepAt(states, events, i)
  }

  // ----- the stored records

  /** Each stored record legally follows the one before it, and its provenance lists them all. */
  predicate LegalHistory(saved: seq<Record>) {
    && (forall i | 0 <= i < |saved| :: saved[i].body.revision == i + 1 && ValidRecord(saved[i]))
    && (forall i | 1 <= i < |saved| :: ValidTransition(saved[i - 1], saved[i]))
    && (saved != [] ==> saved[0].provenance.Linked? && saved[0].provenance.prior == Unlinked)
  }

  predicate StoreInv(s: System) {
    && LegalHistory(s.saved)
    && (s.store == if s.saved == [] then None else Some(s.saved[|s.saved| - 1]))
  }

  lemma ExtendHistory(saved: seq<Record>, next: Record)
    requires LegalHistory(saved) && ValidRecord(next)
    requires if saved == [] then next.body.revision == 1 && next.provenance.prior == Unlinked
             else ValidTransition(saved[|saved| - 1], next)
    ensures LegalHistory(saved + [next])
  {
  }

  lemma NewIsValid(binding: Binding, now: int)
    ensures var r := NewRecord(binding, now);
            ValidRecord(r) && r.body.revision == 1 && r.provenance.prior == Unlinked && r.body.status.Pending?
  {
  }

  lemma StoreInvPreserved(s: System, e: Event)
    requires StoreInv(s) && Enabled(s, e)
    ensures StoreInv(Next(s, e)) && s.saved <= Next(s, e).saved
  {
    StoreStep(s, e);
    var t := Next(s, e);
    if t.saved != s.saved {
      ExtendHistory(s.saved, t.saved[|s.saved|]);
    }
  }

  /** `r` was added to the history and put in the store. */
  predicate Added(s: System, t: System, r: Record) {
    && t.store == Some(r) && t.saved == s.saved + [r] && ValidRecord(r)
    && if s.saved == [] then r.body.revision == 1 && r.provenance.prior == Unlinked
       else ValidTransition(s.saved[|s.saved| - 1], r)
  }

  ghost predicate Follows(s: System, t: System) {
    (t.store == s.store && t.saved == s.saved) || exists r: Record :: Added(s, t, r)
  }

  /** The events that swap the stored record for its successor. */
  predicate Saves(e: Event) {
    e.SaveAuthorizing? || e.SaveDispatching? || e.SaveTerminal? || e.LoseTerminal?
  }

  lemma SwapFollows(s: System, p: nat, prior: Record, next: Record, won: Local)
    requires StoreInv(s) && ValidTransition(prior, next)
    ensures Follows(s, Swap(s, p, prior, next, won))
  {
    if s.store == Some(prior) {
      assert Added(s, Swap(s, p, prior, next, won), next);
    }
  }

  lemma SaveFollows(s: System, e: Event)
    requires StoreInv(s) && Enabled(s, e) && Saves(e)
    ensures Follows(s, Next(s, e))
  {
    var l := s.locals[e.pid];
    var next := NextRecord(l, e.now);
    if e.SaveAuthorizing? {
      SwapFollows(s, e.pid, l.current, next, Gating(next));
    } else if e.SaveDispatching? {
      SwapFollows(s, e.pid, l.current, next, Sending(next));
    } else {
      TerminalFollows(s, e);
    }
  }

  lemma TerminalFollows(s: System, e: Event)
    requires StoreInv(s) && Enabled(s, e) && (e.SaveTerminal? || e.LoseTerminal?)
    ensures Follows(s, Next(s, e))
  {
    var l := s.locals[e.pid];
    var next := NextRecord(l, e.now);
    if e.LoseTerminal? {
      SwapFollows(s, e.pid, l.current, next, Done(Errored));
    } else {
      var receipt := FinalReceipt(l.current, l.status, l.supplied, l.auditId);
      SwapFollows(s, e.pid, l.current, next, Done(if l.failing then ReturnedWithError(receipt) else Returned(receipt)));
    }
  }

  lemma BeginFollows(s: System, e: Event)
    requires StoreInv(s) && Enabled(s, e) && e.Begin?
    ensures Follows(s, Next(s, e))
  {
    if s.store.None? {
      NewIsValid(e.candidate.body.binding, e.candidate.body.createdAt);
      assert Added(s, Next(s, e), e.candidate);
    }
  }

  lemma OthersLeaveStore(s: System, e: Event)
    requires Enabled(s, e) && !e.Begin? && !Saves(e)
    ensures Next(s, e).store == s.store && Next(s, e).saved == s.saved
  {
  }

  /** A step leaves the store alone, or adds one legal record to its history. */
  lemma StoreStep(s: System, e: Event)
    requires StoreInv(s) && Enabled(s, e)
    ensures Follows(s, Next(s, e))
  {
    if e.Begin? {
      BeginFollows(s, e);
    } else if Saves(e) {
      SaveFollows(s, e);
    } else {
      OthersLeaveStore(s, e);
    }
  }

  /** Only the Submit of the event moves. */
  lemma OthersStay(s: System, e: Event, p: nat)
    requires Enabled(s, e) && p != e.pid && p in Next(s, e).locals
    ensures p in s.locals && Next(s, e).locals[p] == s.locals[p]
  {
  }

  lemma CallsStay(s: System, e: Event)
    requires Enabled(s, e) && !e.Dispatch?
    ensures Next(s, e).calls == s.calls
  {
  }

  /** What a step does to the record in the store: nothing, or one legal transition. */
  lemma RecordStep(s: System, e: Event)
    requires StoreInv(s) && Enabled(s, e) && s.store.Some?
    ensures var t := Next(s, e);
            t.store.Some? && (t.store == s.store
                              || LegalTransition(s.store.value.body.status, t.store.value.body.status))
  {
    StoreStep(s, e);
  }

  /** A stored record that has a receipt never changes. */
  lemma TerminalStays(s: System, e: Event)
    requires StoreInv(s) && Enabled(s, e) && s.store.Some? && Terminal(s.store.value.body.status)
    ensures Next(s, e).store == s.store
  {
    RecordStep(s, e);
  }

  /** Statuses only move forward. */
  lemma DispatchedStays(s: System, e: Event)
    requires StoreInv(s) && Enabled(s, e) && Past(s.store)
    ensures Past(Next(s, e).store)
  {
    RecordStep(s, e);
  }

  /** The route has reached its dispatch, or is over. */
  predicate Past(store: Option<Record>) {
    store.Some? && (store.value.body.status.Dispatching? || Terminal(store.value.body.status))
  }

  // ----- at most one dispatch

  predicate IsSending(s: System, p: nat) {
    p in s.locals && s.locals[p].Sending?
  }

  /** A dispatching record that was stored, with its audit event appended. */
  predicate Recorded(s: System, r: Record) {
    r in s.saved && r.body.status.Dispatching? && r.body.dispatchAudit != "" && r.body.dispatchAudit in s.audits
  }

  predicate AuditInv(s: System) {
    forall p <- s.locals.Keys | s.locals[p].Audited? :: s.locals[p].auditId in s.audits
  }

  predicate SendInv(s: System) {
    && (forall p <- s.locals.Keys | IsSending(s, p) ::
          Recorded(s, s.locals[p].current) && s.calls == [] && Past(s.store))
    && (forall p <- s.locals.Keys, q <- s.locals.Keys | IsSending(s, p) && IsSending(s, q) :: p == q)
  }

  predicate CallInv(s: System) {
    |s.calls| <= 1 && (s.calls != [] ==> Past(s.store)) && forall c <- s.calls :: Recorded(s, c.record)
  }

  lemma AuditInvPreserved(s: System, e: Event)
    requires AuditInv(s) && Enabled(s, e)
    ensures AuditInv(Next(s, e))
  {
  }

  lemma RecordedKept(s: System, e: Event, r: Record)
    requires StoreInv(s) && Enabled(s, e) && Recorded(s, r)
    ensures Recorded(Next(s, e), r)
  {
    StoreInvPreserved(s, e);
    assert s.audits <= Next(s, e).audits;
    var i :| 0 <= i < |s.saved| && s.saved[i] == r;
    assert Next(s, e).saved[i] == r;
  }

  /** Only a winning save of the dispatching record makes a Submit a sender. */
  lemma NewSender(s: System, e: Event, p: nat)
    requires StoreInv(s) && AuditInv(s) && Enabled(s, e) && IsSending(Next(s, e), p) && !IsSending(s, p)
    ensures e.SaveDispatching? && e.pid == p && !Past(s.store) && Past(Next(s, e).store)
    ensures Recorded(Next(s, e), Next(s, e).locals[p].current)
  {
    SenderByDispatch(s, e, p);
    DispatchSaved(s, e);
  }

  lemma SenderByDispatch(s: System, e: Event, p: nat)
    requires Enabled(s, e) && IsSending(Next(s, e), p) && !IsSending(s, p)
    ensures e.SaveDispatching? && e.pid == p && s.store == Some(s.locals[p].current)
  {
  }

  lemma DispatchSaved(s: System, e: Event)
    requires StoreInv(s) && AuditInv(s) && Enabled(s, e) && e.SaveDispatching?
             && s.store == Some(s.locals[e.pid].current)
    ensures !Past(s.store) && Past(Next(s, e).store) && IsSending(Next(s, e), e.pid)
    ensures Recorded(Next(s, e), Next(s, e).locals[e.pid].current)
  {
    var next := NextRecord(s.locals[e.pid], e.now);
    assert (s.saved + [next])[|s.saved|] == next;
  }

  lemma SendInvPreserved(s: System, e: Event)
    requires StoreInv(s) && AuditInv(s) && SendInv(s) && CallInv(s) && Enabled(s, e)
    ensures SendInv(Next(s, e))
  {
    var t := Next(s, e);
    forall p | p in t.locals && IsSending(t, p)
      ensures Recorded(t, t.locals[p].current) && t.calls == [] && Past(t.store)
    {
      SenderKept(s, e, p);
    }
    forall p, q | p in t.locals && q in t.locals && IsSending(t, p) && IsSending(t, q)
      ensures p == q
    {
      SendersKept(s, e, p, q);
    }
  }

  lemma SenderKept(s: System, e: Event, p: nat)
    requires StoreInv(s) && AuditInv(s) && SendInv(s) && CallInv(s) && Enabled(s, e) && IsSending(Next(s, e), p)
    ensures var t := Next(s, e); Recorded(t, t.locals[p].current) && t.calls == [] && Past(t.store)
  {
    if IsSending(s, p) {
      RecordedKept(s, e, s.locals[p].current);
      DispatchedStays(s, e);
      OthersWait(s, e, p);
    } else {
      NewSender(s, e, p);
    }
  }

  /** While `p` is still a sender, no dispatch happened and `p` did not move. */
  lemma OthersWait(s: System, e: Event, p: nat)
    requires SendInv(s) && Enabled(s, e) && IsSending(s, p) && IsSending(Next(s, e), p)
    ensures Next(s, e).locals[p] == s.locals[p] && Next(s, e).calls == s.calls
  {
    assert e.Dispatch? ==> IsSending(s, e.pid);
    if e.pid == p {
      SenderMoves(s, e);
    } else {
      OthersStay(s, e, p);
      CallsStay(s, e);
    }
  }

  /** A sender's own next event ends its sending. */
  lemma SenderMoves(s: System, e: Event)
    requires Enabled(s, e) && IsSending(s, e.pid)
    ensures !IsSending(Next(s, e), e.pid)
  {
  }

  lemma SendersKept(s: System, e: Event, p: nat, q: nat)
    requires StoreInv(s) && AuditInv(s) && SendInv(s) && Enabled(s, e) && IsSending(Next(s, e), p)
             && IsSending(Next(s, e), q)
    ensures p == q
  {
    if !IsSending(s, p) {
      NewSender(s, e, p);
    }
    if !IsSending(s, q) {
      NewSender(s, e, q);
    }
  }

  lemma CallInvPreserved(s: System, e: Event)
    requires StoreInv(s) && SendInv(s) && CallInv(s) && Enabled(s, e)
    ensures CallInv(Next(s, e))
  {
    var t := Next(s, e);
    if Past(s.store) {
      DispatchedStays(s, e);
    }
    if e.Dispatch? {
      DispatchCalls(s, e);
    } else {
      CallsStay(s, e);
      forall c | c in t.calls ensures Recorded(t, c.record) {
        RecordedKept(s, e, c.record);
      }
    }
  }

  lemma DispatchCalls(s: System, e: Event)
    requires StoreInv(s) && SendInv(s) && Enabled(s, e) && e.Dispatch?
    ensures CallInv(Next(s, e))
  {
    assert IsSending(s, e.pid);
    RecordedKept(s, e, s.locals[e.pid].current);
    OthersLeaveStore(s, e);
  }

  // ----- one receipt

  predicate ReceiptInv(s: System) {
    forall p <- s.locals.Keys | Answer(s.locals[p]).Some? :: Holds(s, Answer(s.locals[p]).value)
  }

  /** The receipt a finished Submit returned, with or without an error. */
  function Answer(l: Local): Option<Receipt> {
    if l.Done? && !l.ending.Errored? then Some(l.ending.receipt) else None
  }

  predicate Holds(s: System, r: Receipt) {
    s.store.Some? && Terminal(s.store.value.body.status) && s.store.value.body.receipt == Some(r)
  }

  lemma NewAnswer(s: System, e: Event)
    requires StoreInv(s) && Enabled(s, e) && Answer(Next(s, e).locals[e.pid]).Some?
    ensures Holds(Next(s, e), Answer(Next(s, e).locals[e.pid]).value)
  {
    if e.SaveTerminal? {
      SavedAnswer(s, e);
    } else {
      FoundAnswer(s, e);
    }
  }

  lemma SavedAnswer(s: System, e: Event)
    requires Enabled(s, e) && e.SaveTerminal? && Answer(Next(s, e).locals[e.pid]).Some?
    ensures Holds(Next(s, e), Answer(Next(s, e).locals[e.pid]).value)
  {
  }

  lemma FoundAnswer(s: System, e: Event)
    requires Enabled(s, e) && !e.SaveTerminal? && Answer(Next(s, e).locals[e.pid]).Some?
    ensures Holds(Next(s, e), Answer(Next(s, e).locals[e.pid]).value)
  {
  }

  lemma ReceiptInvPreserved(s: System, e: Event)
    requires StoreInv(s) && ReceiptInv(s) && Enabled(s, e)
    ensures ReceiptInv(Next(s, e))
  {
    var t := Next(s, e);
    forall p | p in t.locals && Answer(t.locals[p]).Some?
      ensures Holds(t, Answer(t.locals[p]).value)
    {
      AnswerHolds(s, e, p);
    }
  }

  lemma AnswerHolds(s: System, e: Event, p: nat)
    requires StoreInv(s) && ReceiptInv(s) && Enabled(s, e) && p in Next(s, e).locals
    requires Answer(Next(s, e).locals[p]).Some?
    ensures Holds(Next(s, e), Answer(Next(s, e).locals[p]).value)
  {
    if p == e.pid {
      NewAnswer(s, e);
    } else {
      OthersStay(s, e, p);
      assert Holds(s, Answer(s.locals[p]).value);
      TerminalStays(s, e);
    }
  }

  // ----- every run

  predicate Inv(s: System) {
    StoreInv(s) && AuditInv(s) && SendInv(s) && CallInv(s) && ReceiptInv(s)
  }

  lemma InvPreserved(s: System, e: Event)
    requires Inv(s) && Enabled(s, e)
    ensures Inv(Next(s, e))
  {
    StoreInvPreserved(s, e);
    AuditInvPreserved(s, e);
    SendInvPreserved(s, e);
    CallInvPreserved(s, e);
    ReceiptInvPreserved(s, e);
  }

  lemma {:induction false} InvOnRuns(states: seq<System>, events: seq<Event>, i: nat)
    requires IsRun(states, events) && i < |states|
    ensures Inv(states[i])
  {
    if i > 0 {
      InvOnRuns(states, events, i - 1);
      assert StepAt(states, events, i - 1);
      InvPreserved(states[i - 1], events[i - 1]);
    }
  }

  /** In every run the connector is called at most once, for a record stored as dispatching with its audit event. */
  lemma DispatchedAtMostOnce(states: seq<System>, events: seq<Event>, i: nat)
    requires IsRun(states, events) && i < |states|
    ensures |states[i].calls| <= 1
    ensures forall c <- states[i].calls :: Recorded(states[i], c.record)
  {
    InvOnRuns(states, events, i);
  }

  /** A call is made only when its record is already stored and audited. */
  lemma DispatchNeedsSavedRecord(states: seq<System>, events: seq<Event>, i: nat)
    requires IsRun(states, events) && i < |events| && events[i].Dispatch?
    ensures IsSending(states[i], events[i].pid)
    ensures states[i].calls == [] && Recorded(states[i], states[i].locals[events[i].pid].current)
    ensures states[i + 1].calls == [Call(events[i].pid, states[i].locals[events[i].pid].current)]
  {
    assert StepAt(states, events, i);
    InvOnRuns(states, events, i);
  }

  lemma {:induction false} TerminalForever(states: seq<System>, events: seq<Event>, i: nat, j: nat)
    requires IsRun(states, events) && i <= j < |states|
    requires states[i].store.Some? && Terminal(states[i].store.value.body.status)
    ensures states[j].store == states[i].store
  {
    if i < j {
      TerminalForever(states, events, i, j - 1);
      InvOnRuns(states, events, j - 1);
      assert StepAt(states, events, j - 1);
      TerminalStays(states[j - 1], events[j - 1]);
    }
  }

  /** Whatever a Submit returns is the stored terminal receipt, then and at every later time. */
  lemma ReturnedIsStored(states: seq<System>, events: seq<Event>, i: nat, j: nat, p: nat)
    requires IsRun(states, events) && i <= j < |states| && p in states[i].locals && Answer(states[i].locals[p]).Some?
    ensures Holds(states[j], Answer(states[i].locals[p]).value)
  {
    InvOnRuns(states, events, i);
    assert Holds(states[i], Answer(states[i].locals[p]).value);
    TerminalForever(states, events, i, j);
  }

  /** Any two Submits that return a receipt return the same one. */
  lemma ReceiptsAgree(states: seq<System>, events: seq<Event>, i: nat, p: nat, j: nat, q: nat)
    requires IsRun(states, events) && i < |states| && j < |states|
    requires p in states[i].locals && Answer(states[i].locals[p]).Some?
    requires q in states[j].locals && Answer(states[j].locals[q]).Some?
    ensures Answer(states[i].locals[p]) == Answer(states[j].locals[q])
  {
    var last := |states| - 1;
    ReturnedIsStored(states, events, i, last, p);
    ReturnedIsStored(states, events, j, last, q);
  }

  /** The records a provenance value stands for, oldest first. */
  function Chain(p: Provenance): seq<Body> {
    if p.Unlinked? then [] else Chain(p.prior) + [p.body]
  }

  lemma {:induction false} ChainOfHistory(saved: seq<Record>, k: nat)
    requires LegalHistory(saved) && k < |saved|
    ensures |Chain(saved[k].provenance)| == k + 1
    ensures forall i | 0 <= i <= k :: Chain(saved[k].provenance)[i] == saved[i].body
  {
    if k > 0 {
      ChainOfHistory(saved, k - 1);
      assert ValidTransition(saved[k - 1], saved[k]);
    }
  }

  /** In every run the stored record's provenance lists exactly the records stored so far. */
  lemma ProvenanceTellsHistory(states: seq<System>, events: seq<Event>, i: nat)
    requires IsRun(states, events) && i < |states| && states[i].store.Some?
    ensures var saved := states[i].saved;
            var chain := Chain(states[i].store.value.provenance);
            |chain| == |saved| && forall k | 0 <= k < |saved| :: chain[k] == saved[k].body
  {
    InvOnRuns(states, events, i);
    ChainOfHistory(states[i].saved, |states[i].saved| - 1);
  }

  /** Over any run revisions count up by one, the binding never changes, and only the last record is terminal. */
  lemma HistoryIsLegal(states: seq<System>, events: seq<Event>, i: nat, a: nat, b: nat)
    requires IsRun(states, events) && i < |states| && a < b < |states[i].saved|
    ensures var saved := states[i].saved;
            && saved[b].body.revision - saved[a].body.revision == b - a
            && saved[b].body.binding == saved[a].body.binding && saved[a].body.updatedAt <= saved[b].body.updatedAt
            && !Terminal(saved[a].body.status) && Rank(saved[a].body.status) < Rank(saved[b].body.status)
  {
    InvOnRuns(states, events, i);
    LegalPair(states[i].saved, a, b);
  }

  function Rank(s: Status): nat {
    if s.Pending? then 0 else if s.Authorizing? then 1 else if s.Dispatching? then 2 else 3
  }

  lemma {:induction false} LegalPair(saved: seq<Record>, a: nat, b: nat)
    requires LegalHistory(saved) && a < b < |saved|
    ensures saved[b].body.binding == saved[a].body.binding && saved[a].body.updatedAt <= saved[b].body.updatedAt
    ensures !Terminal(saved[a].body.status) && Rank(saved[a].body.status) < Rank(saved[b].body.status)
    decreases b
  {
    assert ValidTransition(saved[b - 1], saved[b]);
    if a < b - 1 {
      LegalPair(saved, a, b - 1);
    }
  }
}
