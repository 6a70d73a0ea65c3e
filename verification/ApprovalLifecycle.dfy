/** The durable approval record and the transitions its contract permits. */
module ApprovalLifecycle {
  import opened Wrappers

  datatype State = Requested | Granted | Rejected | Expired | Consumed | Revoked

  datatype Grant = Grant(actor: string, actorRevision: nat, principal: string, enrollment: nat, grantedAt: int)

  /** What an approval is for; no transition may change it. */
  datatype Binding = Binding(
    fingerprint: string,
    requestorActor: string,
    requestorPrincipal: string,
    actionOwner: string,
    tier: string,
    requestedAt: int,
    validFrom: int,
    validUntil: int,
    requiredGrants: nat,
    maximumUses: nat)

  datatype Record = Record(
    binding: Binding,
    state: State,
    revision: nat,
    grants: seq<Grant>,
    uses: nat,
    updatedAt: int,
    lastOperation: string)

  predicate Terminal(s: State) {
    s.Rejected? || s.Expired? || s.Consumed? || s.Revoked?
  }

  /** No actor and no principal grants twice. */
  predicate Distinct(grants: seq<Grant>) {
    forall i, j | 0 <= i < j < |grants| ::
      grants[i].actor != grants[j].actor && grants[i].principal != grants[j].principal
  }

  predicate ValidGrant(b: Binding, updatedAt: int, g: Grant) {
    && g.actorRevision > 0 && g.enrollment > 0 && b.requestedAt <= g.grantedAt <= updatedAt
    && g.actor != b.requestorActor && g.principal != b.requestorPrincipal
  }

  predicate StateShape(r: Record) {
    match r.state
    case Requested => |r.grants| < r.binding.requiredGrants && r.uses == 0
    case Granted => |r.grants| == r.binding.requiredGrants && r.uses < r.binding.maximumUses
    case Consumed => |r.grants| == r.binding.requiredGrants && r.uses == r.binding.maximumUses
    case Rejected => r.uses == 0
    case Expired => r.uses == 0
    case Revoked => r.uses < r.binding.maximumUses
  }

  /** `ValidateRecord`, apart from the formats of identifiers, digests and reason codes. */
  predicate ValidRecord(r: Record) {
    var b := r.binding;
    && b.validFrom < b.validUntil && b.requestedAt <= r.updatedAt && r.revision > 0
    && 0 < b.requiredGrants <= 16 && 0 < b.maximumUses <= 1000 && r.uses <= b.maximumUses
    && |r.grants| <= b.requiredGrants && Distinct(r.grants)
    && (forall g <- r.grants :: ValidGrant(b, r.updatedAt, g))
    && StateShape(r)
  }

  /** `ValidateTransition`: the reason of a refusal, or None. */
  function TransitionError(previous: Record, next: Record): Option<string> {
    if !ValidRecord(previous) || !ValidRecord(next) then Some("record_invalid")
    else if next.revision != previous.revision + 1 then Some("stale_revision")
    else if next.binding != previous.binding then Some("approval_binding_changed")
    else if next.updatedAt < previous.updatedAt then Some("time_regression")
    else if Terminal(previous.state) then Some("terminal_state")
    else if !(previous.grants <= next.grants) then Some("grant_history_changed")
    else if previous.state.Requested? then RequestedError(previous, next)
    else GrantedError(previous, next)
  }

  function RequestedError(previous: Record, next: Record): Option<string> {
    match next.state
    case Requested => GrantError(previous, next)
    case Granted => GrantError(previous, next)
    case Consumed => Some("transition_denied")
    case _ => if |next.grants| != |previous.grants| || next.uses != 0 then Some("disposition_transition_invalid")
      else None
  }

  function GrantError(previous: Record, next: Record): Option<string> {
    if |next.grants| != |previous.grants| + 1 || next.uses != 0 then Some("grant_transition_invalid")
    else if (|next.grants| == next.binding.requiredGrants) != next.state.Granted? then Some("grant_threshold_invalid")
    else None
  }

  function GrantedError(previous: Record, next: Record): Option<string> {
    match next.state
    case Granted => ConsumeError(previous, next)
    case Consumed => ConsumeError(previous, next)
    case Expired => KeepError(previous, next)
    case Revoked => KeepError(previous, next)
    case _ => Some("transition_denied")
  }

  function ConsumeError(previous: Record, next: Record): Option<string> {
    if |next.grants| != |previous.grants| || next.uses != previous.uses + 1 then Some("consume_transition_invalid")
    else if (next.uses == next.binding.maximumUses) != next.state.Consumed? then Some("consume_limit_invalid")
    else None
  }

  function KeepError(previous: Record, next: Record): Option<string> {
    if |next.grants| != |previous.grants| || next.uses != previous.uses then Some("disposition_transition_invalid")
    else None
  }

  /** The steps a record may take: a grant, a use, or an end that keeps what was granted and used. */
  predicate LegalStep(previous: Record, next: Record) {
    var grants, uses := |previous.grants|, previous.uses;
    match previous.state
    case Requested =>
      && previous.grants <= next.grants && next.uses == 0
      && if next.state in {Rejected, Expired, Revoked} then |next.grants| == grants
         else |next.grants| == grants + 1
              && next.state == if grants + 1 == next.binding.requiredGrants then Granted else Requested
    case Granted =>
      && next.grants == previous.grants
      && if next.state in {Expired, Revoked} then next.uses == uses
         else next.uses == uses + 1
              && next.state == if uses + 1 == next.binding.maximumUses then Consumed else Granted
    case _ => false
  }

  /** The contract permits exactly the next revision of a valid record, no earlier, by one of these steps. */
  lemma ContractExactly(previous: Record, next: Record)
    ensures TransitionError(previous, next).None? <==>
            && ValidRecord(previous) && ValidRecord(next) && next.revision == previous.revision + 1
            && next.binding == previous.binding && previous.updatedAt <= next.updatedAt && LegalStep(previous, next)
  {
  }

  /** The scan for a repeated approver, with the actors and principals seen so far. */
  method DuplicateGrant(grants: seq<Grant>) returns (found: bool)
    ensures found == !Distinct(grants)
  {
    var actors: set<string>, principals: set<string> := {}, {};
    for index := 0 to |grants|
      invariant Distinct(grants[..index])
      invariant actors == set i | 0 <= i < index :: grants[i].actor
      invariant principals == set i | 0 <= i < index :: grants[i].principal
    {
      var g := grants[index];
      if g.actor in actors || g.principal in principals {
        var i :| 0 <= i < index && (grants[i].actor == g.actor || grants[i].principal == g.principal);
        return true;
      }
      actors, principals := actors + {g.actor}, principals + {g.principal};
    }
    assert grants[..|grants|] == grants;
    found := false;
  }

  /** In a valid record the uses reach the maximum exactly when it is consumed. */
  lemma ConsumedExactlyAtMaximum(r: Record)
    requires ValidRecord(r)
    ensures r.state.Consumed? <==> r.uses == r.binding.maximumUses
  {
  }
}
