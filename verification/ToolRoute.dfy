/** The tool-route record, its transition rules and the compare-and-swap store behind it. */
module ToolRoute {
  import opened Wrappers

  datatype Status = Pending | Authorizing | Dispatching | Succeeded | Denied | Canceled | Timeout | Failed | Uncertain

  predicate Terminal(s: Status) {
    !s.Pending? && !s.Authorizing? && !s.Dispatching?
  }

  predicate LegalTransition(prior: Status, next: Status) {
    match prior
    case Pending => next.Authorizing? || Terminal(next)
    case Authorizing => next.Dispatching? || Terminal(next)
    case Dispatching => Terminal(next)
    case _ => false
  }

  datatype Receipt = Receipt(intentDigest: string, outcome: string, evidence: string)

  /** What a route is bound to; it never changes over a route's life. */
  datatype Binding = Binding(intentDigest: string, contextDigest: string, manifestDigest: string, policyDigest: string,
                             approvalId: string, requestor: (string, nat), owner: (string, nat))

  datatype Body = Body(
    binding: Binding,
    status: Status,
    reason: string,
    preDispatch: string,
    approvalRevision: nat,
    approvalFingerprint: string,
    dispatchAudit: string,
    completionAudit: string,
    receipt: Option<Receipt>,
    createdAt: int,
    updatedAt: int,
    revision: nat)

  /** The provenance digest, as the injective value it stands for: the chain of all earlier records. */
  datatype Provenance = Unlinked | Linked(prior: Provenance, operation: string, body: Body)

  datatype Record = Record(body: Body, provenance: Provenance)

  function OutcomeOf(s: Status): string {
    match s
    case Pending => "pending"
    case Authorizing => "authorizing"
    case Dispatching => "dispatching"
    case Succeeded => "succeeded"
    case Denied => "denied"
    case Canceled => "canceled"
    case Timeout => "timeout"
    case Failed => "failed"
    case Uncertain => "uncertain"
  }

  function StatusForOutcome(outcome: string): (s: Status)
    ensures Terminal(s)
  {
    match outcome
    case "succeeded" => Succeeded
    case "denied" => Denied
    case "canceled" => Canceled
    case "timeout" => Timeout
    case "failed" => Failed
    case _ => Uncertain
  }

  predicate ValidReceipt(r: Receipt, intentDigest: string) {
    r.intentDigest == intentDigest && exists s: Status :: Terminal(s) && r.outcome == OutcomeOf(s)
  }

  /** The checks of one record, apart from the formats of its identifiers and digests. */
  predicate ValidRecord(r: Record) {
    var b := r.body;
    && b.createdAt <= b.updatedAt && b.revision > 0
    && ((b.preDispatch == "") == (b.approvalRevision == 0) == (b.approvalFingerprint == ""))
    && (Terminal(b.status) == b.receipt.Some?) && (Terminal(b.status) == (b.completionAudit != ""))
    && (b.receipt.Some? ==> ValidReceipt(b.receipt.value, b.binding.intentDigest))
    && (b.status.Dispatching? || b.status.Succeeded? || b.status.Uncertain? ==> b.dispatchAudit != "")
    && r.provenance.Linked? && r.provenance.operation == b.reason && r.provenance.body == b
  }

  predicate ValidTransition(prior: Record, next: Record) {
    var p, n := prior.body, next.body;
    && ValidRecord(prior) && ValidRecord(next)
    && p.binding == n.binding && p.createdAt == n.createdAt && p.updatedAt <= n.updatedAt
    && n.revision == p.revision + 1 && next.provenance.prior == prior.provenance
    && LegalTransition(p.status, n.status)
    && (p.preDispatch != "" ==> p.preDispatch == n.preDispatch)
    && (p.approvalRevision != 0 ==> p.approvalRevision == n.approvalRevision)
    && (p.approvalFingerprint != "" ==> p.approvalFingerprint == n.approvalFingerprint)
    && (p.dispatchAudit != "" ==> p.dispatchAudit == n.dispatchAudit)
    && p.completionAudit == "" && p.receipt.None?
    && (n.status.Authorizing? ==>
        n.preDispatch == "" && n.approvalRevision == 0 && n.approvalFingerprint == "" && n.dispatchAudit == "")
  }

  /** What the pre-dispatch gate hands back. */
  datatype Grant = Grant(decision: string, approvalRevision: nat, fingerprint: string)

  function NewRecord(binding: Binding, now: int): Record {
    var body := Body(binding, Pending, "route_started", "", 0, "", "", "", None, now, now, 1);
    Record(body, Linked(Unlinked, "route_started", body))
  }

  function Sealed(prior: Record, body: Body): Record {
    Record(body, Linked(prior.provenance, body.reason, body))
  }

  function Moved(current: Record, status: Status, operation: string, now: int): Body {
    current.body.(status := status, reason := operation, updatedAt := now, revision := current.body.revision + 1)
  }

  function AuthorizingRecord(current: Record, now: int): Record {
    Sealed(current, Moved(current, Authorizing, "authorization_started", now))
  }

  function DispatchingRecord(current: Record, grant: Grant, auditId: string, now: int): Record {
    Sealed(current, Moved(current, Dispatching, "dispatch_started", now)
      .(dispatchAudit := auditId, preDispatch := grant.decision, approvalRevision := grant.approvalRevision,
        approvalFingerprint := grant.fingerprint))
  }

  /** The receipt a route ends with: the connector's own, or one made from the completion audit. */
  function FinalReceipt(current: Record, status: Status, supplied: Option<Receipt>, auditId: string): Receipt {
    if supplied.Some? then supplied.value else Receipt(current.body.binding.intentDigest, OutcomeOf(status), auditId)
  }

  function TerminalRecord(current: Record, bound: Body, status: Status, reason: string, supplied: Option<Receipt>,
                          auditId: string, now: int): Record {
    Sealed(current, Moved(current, status, reason, now)
      .(completionAudit := auditId, preDispatch := bound.preDispatch, approvalRevision := bound.approvalRevision,
        approvalFingerprint := bound.approvalFingerprint,
            receipt := Some(FinalReceipt(current, status, supplied, auditId))))
  }

  /** The port's `begin`: the stored record if there is one, else the candidate, now stored. */
  function BeginRecord(store: Option<Record>, candidate: Record): (Record, bool) {
    if store.Some? then (store.value, true) else (candidate, false)
  }

  /** The port's `save`, taken to be a compare-and-swap on the prior record. */
  function SaveRecord(store: Option<Record>, prior: Record, next: Record): (Option<Record>, bool) {
    if store == Some(prior) then (Some(next), true) else (store, false)
  }

  /** The store for one operation. */
  class RouteStore {
    var record: Option<Record>

    constructor ()
      ensures record == None
    {
      record := None;
    }

    method Begin(candidate: Record) returns (current: Record, replayed: bool)
      modifies this
      ensures (current, replayed) == BeginRecord(old(record), candidate) && record == Some(current)
    {
      replayed := record.Some?;
      if !replayed {
        record := Some(candidate);
      }
      current := record.value;
    }

    method Save(prior: Record, next: Record) returns (saved: bool)
      modifies this
      ensures (record, saved) == SaveRecord(old(record), prior, next)
    {
      saved := record == Some(prior);
      if saved {
        record := Some(next);
      }
    }
  }
}
