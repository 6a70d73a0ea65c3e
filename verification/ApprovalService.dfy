/** The broker's approval commands: who may do what, and the record each one proposes. */
module ApprovalService {
  import opened ApprovalLifecycle
  import opened Concatenation
  import opened Decimal
  import opened Wrappers

  datatype Actor = Actor(id: string, revision: nat, inScope: bool, active: bool, roles: set<string>,
                         permissions: set<string>)

  datatype Principal = Principal(id: string, actor: string, actorRevision: nat, enrollment: nat, enrolled: bool,
                                 human: bool)

  datatype Authority = Authority(actor: Actor, principal: Principal)

  datatype Operation = Give | Reject | Expire | Consume | Revoke

  /** A command; `proven` is the outcome of checking its fingerprint proof against the record. */
  datatype Command = Command(
    operation: Operation,
    expectedRevision: nat,
    digest: string,
    actor: Actor,
    principal: Option<Principal>,
    authorities: seq<Authority>,
    proven: bool,
    now: int)

  function ActorError(a: Actor, permission: string): Option<string> {
    if a.revision == 0 then Some("actor_authority")
    else if !a.inScope then Some("actor_scope_mismatch")
    else if !a.active then Some("actor_revoked")
    else if permission !in a.permissions then Some("permission_denied")
    else None
  }

  function ApproverError(a: Actor, p: Principal, b: Binding): Option<string> {
    var actorError := ActorError(a, "approval.decide");
    if actorError.Some? then actorError
    else if p.actor != a.id || p.actorRevision != a.revision || p.enrollment == 0 || !p.enrolled || !p.human
            || "approver" !in a.roles then
      Some("approver_ineligible")
    else if a.id == b.requestorActor || p.id == b.requestorPrincipal then Some("self_approval")
    else None
  }

  function TransitionActorError(c: Command, r: Record): Option<string> {
    var permission := match c.operation
      case Consume => "action.request"
      case Expire => "service.invoke"
      case _ => "approval.decide";
    var actorError := ActorError(c.actor, permission);
    if actorError.Some? then actorError
    else if c.operation.Give? && c.actor.id == r.binding.requestorActor then Some("self_approval")
    else if c.operation.Consume? && c.actor.id != r.binding.actionOwner then Some("action_owner_mismatch")
    else None
  }

  predicate Current(b: Binding, now: int) {
    b.validFrom <= now < b.validUntil
  }

  /** The authority presented for one grant is at least as new as the grant, and still eligible. */
  predicate StillEligible(a: Authority, g: Grant, b: Binding) {
    && a.actor.id == g.actor && a.principal.id == g.principal
    && a.actor.revision >= g.actorRevision && a.principal.enrollment >= g.enrollment
    && ApproverError(a.actor, a.principal, b).None?
  }

  predicate AuthoritiesHold(authorities: seq<Authority>, r: Record) {
    && |authorities| == |r.grants| == r.binding.requiredGrants
    && forall i | 0 <= i < |r.grants| :: StillEligible(authorities[i], r.grants[i], r.binding)
  }

  /** The loop over the grants of a record about to be consumed. */
  method ValidateGrantAuthorities(authorities: seq<Authority>, r: Record) returns (error: Option<string>)
    ensures error.None? <==> AuthoritiesHold(authorities, r)
  {
    if |authorities| != |r.grants| || |authorities| != r.binding.requiredGrants {
      return Some("approver_enrollment_incomplete");
    }
    for index := 0 to |r.grants|
      invariant forall i | 0 <= i < index :: StillEligible(authorities[i], r.grants[i], r.binding)
    {
      var grant, a := r.grants[index], authorities[index];
      if a.actor.id != grant.actor || a.principal.id != grant.principal
         || a.actor.revision < grant.actorRevision || a.principal.enrollment < grant.enrollment {
        return Some("approver_authority_changed");
      }
      error := ApproverError(a.actor, a.principal, r.binding);
      if error.Some? {
        return;
      }
    }
    error := None;
  }

  /** `validateOperation`: whether the record's state and the command's authority allow it. */
  predicate OperationAllowed(c: Command, r: Record) {
    match c.operation
    case Give =>
      && r.state.Requested? && Current(r.binding, c.now) && c.principal.Some?
      && ApproverError(c.actor, c.principal.value, r.binding).None? && c.proven
    case Reject => r.state.Requested?
    case Expire => (r.state.Requested? || r.state.Granted?) && r.binding.validUntil <= c.now
    case Consume => r.state.Granted? && Current(r.binding, c.now) && AuthoritiesHold(c.authorities, r) && c.proven
    case Revoke => r.state.Requested? || r.state.Granted?
  }

  /** `applyTransition` on the next revision of the record. */
  function Proposed(c: Command, r: Record): Record
    requires c.operation.Give? ==> c.principal.Some?
  {
    var next := r.(revision := r.revision + 1, updatedAt := c.now, lastOperation := c.digest);
    match c.operation
    case Give =>
      var grants := r.grants + [Grant(c.actor.id, c.actor.revision, c.principal.value.id, c.principal.value.enrollment,
                                      c.now)];
      next.(grants := grants, state := if |grants| == r.binding.requiredGrants then Granted else r.state)
    case Reject => next.(state := Rejected)
    case Expire => next.(state := Expired)
    case Consume =>
      next.(uses := r.uses + 1, state := if r.uses + 1 == r.binding.maximumUses then Consumed else r.state)
    case Revoke => next.(state := Revoked)
  }

  /** A command that passes every check the broker makes before the lifecycle contract's own. */
  predicate BrokerAllows(c: Command, r: Record) {
    c.expectedRevision == r.revision && TransitionActorError(c, r).None? && OperationAllowed(c, r)
  }

  /** The approver has not granted before, as actor or as principal. */
  predicate NewApprover(c: Command, r: Record) {
    c.principal.Some? && forall g <- r.grants :: g.actor != c.actor.id && g.principal != c.principal.value.id
  }

  lemma GrantAccepted(c: Command, r: Record)
    requires ValidRecord(r) && c.operation.Give? && BrokerAllows(c, r)
    ensures TransitionError(r, Proposed(c, r)).None? <==> r.updatedAt <= c.now && NewApprover(c, r)
  {
    var next := Proposed(c, r);
    var g := Grant(c.actor.id, c.actor.revision, c.principal.value.id, c.principal.value.enrollment, c.now);
    assert next.grants == r.grants + [g] && next.grants[|r.grants|] == g;
    if r.updatedAt <= c.now && NewApprover(c, r) {
      assert ValidGrant(r.binding, c.now, g);
      forall h | h in next.grants ensures ValidGrant(r.binding, c.now, h) {
        assert h in r.grants || h == g;
      }
      assert Distinct(next.grants);
    } else if r.updatedAt <= c.now {
      var i :| 0 <= i < |r.grants| && (r.grants[i].actor == g.actor || r.grants[i].principal == g.principal);
      assert next.grants[i] == r.grants[i];
      assert !Distinct(next.grants);
    }
  }

  /**
   * The lifecycle contract accepts what the broker proposes exactly when time has not gone back,
   * a grant comes from a new approver, and an expiry is of an approval that was never used.
   */
  lemma ProposalAccepted(c: Command, r: Record)
    requires ValidRecord(r) && BrokerAllows(c, r)
    ensures TransitionError(r, Proposed(c, r)).None?
       <==> r.updatedAt <= c.now && (c.operation.Give? ==> NewApprover(c, r)) && (c.operation.Expire? ==> r.uses == 0)
  {
    if c.operation.Give? {
      GrantAccepted(c, r);
    } else {
      var next := Proposed(c, r);
      assert next.grants == r.grants;
      if r.updatedAt <= c.now {
        forall g | g in r.grants ensures ValidGrant(r.binding, c.now, g) {
          assert ValidGrant(r.binding, r.updatedAt, g);
        }
      }
    }
  }

  /** An approval of which some uses are spent cannot be expired, however late it is. */
  lemma PartlyUsedCannotExpire(c: Command, r: Record)
    requires ValidRecord(r) && BrokerAllows(c, r) && c.operation.Expire? && r.uses > 0
    ensures TransitionError(r, Proposed(c, r)).Some?
  {
    ProposalAccepted(c, r);
  }

  /** The stored digest and revision show that this very command was committed last. */
  predicate IsReplay(c: Command, r: Record) {
    r.lastOperation == c.digest && r.revision == c.expectedRevision + 1
  }

  datatype Outcome = Outcome(record: Record, replayed: bool)

  /** The service over the stored record, whose commits are checked against the stored revision. */
  class Service {
    var record: Option<Record>

    constructor (initial: Option<Record>)
      ensures record == initial
    {
      record := initial;
    }

    method Transition(c: Command) returns (r: Result<Outcome>)
      modifies this
      ensures old(record).Some? && IsReplay(c, old(record).value) ==> r == Ok(Outcome(old(record).value, true))
      ensures r.Ok? && !r.value.replayed <==>
                && old(record).Some? && !IsReplay(c, old(record).value) && BrokerAllows(c, old(record).value)
                && TransitionError(old(record).value, Proposed(c, old(record).value)).None?
      ensures record == if r.Ok? then Some(r.value.record) else old(record)
      ensures old(record).None? ==> r == Err("not_found")
      ensures old(record).Some? && !IsReplay(c, old(record).value) ==>
                var stored := old(record).value;
                if c.expectedRevision != stored.revision then r == Err("stale_revision")
                else if TransitionActorError(c, stored).Some? then r == Err(TransitionActorError(c, stored).value)
                else if !OperationAllowed(c, stored) then r == Err("operation_denied")
                else r.Err? ==> r == Err(TransitionError(stored, Proposed(c, stored)).value)
      ensures r.Ok? ==>
              old(record).Some?
              && r.value.record == if r.value.replayed then old(record).value else Proposed(c, old(record).value)
    {
      if record.None? {
        return Err("not_found");
      }
      var current := record.value;
      if IsReplay(c, current) {
        return Ok(Outcome(current, true));
      }
      if current.revision != c.expectedRevision {
        return Err("stale_revision");
      }
      var actorError := TransitionActorError(c, current);
      if actorError.Some? {
        return Err(actorError.value);
      }
      if !OperationAllowed(c, current) {
        return Err("operation_denied");
      }
      var next := Proposed(c, current);
      var contractError := TransitionError(current, next);
      if contractError.Some? {
        return Err(contractError.value);
      }
      record := Some(next);
      r := Ok(Outcome(next, false));
    }
  }

  function RequiredGrants(tier: string): nat {
    if tier == "T4" then 2 else 1
  }

  function RequestRecord(b: Binding, digest: string): Record {
    Record(b, Requested, 1, [], 0, b.requestedAt, digest)
  }

  // ----- the fingerprint comparison

  datatype Fingerprint = Fingerprint(fields: seq<string>, maximumUses: nat)

  /** The text that is compared: ten fields of fixed width, then the use count. */
  function MatchText(f: Fingerprint): string {
    Joined(f.fields) + Digits(f.maximumUses)
  }

  predicate SameWidths(a: seq<string>, b: seq<string>) {
    |a| == |b| && forall i | 0 <= i < |a| :: |a[i]| == |b[i]|
  }

  lemma {:induction false} JoinedSplits(a: seq<string>, b: seq<string>, x: string, y: string)
    requires SameWidths(a, b) && Joined(a) + x == Joined(b) + y
    ensures a == b && x == y
  {
    if a == [] {
      assert Joined(a) + x == x && Joined(b) + y == y;
    } else {
      var left, right := Joined(a) + x, Joined(b) + y;
      assert left == a[0] + (Joined(a[1..]) + x) && right == b[0] + (Joined(b[1..]) + y);
      assert left[..|a[0]|] == a[0] && right[..|b[0]|] == b[0];
      assert left[|a[0]|..] == Joined(a[1..]) + x && right[|b[0]|..] == Joined(b[1..]) + y;
      JoinedSplits(a[1..], b[1..], x, y);
      assert a == [a[0]] + a[1..] && b == [b[0]] + b[1..];
    }
  }

  /** Comparing the concatenated texts is comparing every field, because all but the last have fixed widths. */
  lemma MatchIsFieldEquality(a: Fingerprint, b: Fingerprint)
    requires SameWidths(a.fields, b.fields)
    ensures MatchText(a) == MatchText(b) <==> a == b
  {
    if MatchText(a) == MatchText(b) {
      JoinedSplits(a.fields, b.fields, Digits(a.maximumUses), Digits(b.maximumUses));
      DigitsInjective(a.maximumUses, b.maximumUses);
    }
  }

  // ----- decimal text of a 64-bit count

  function Power(n: nat): nat {
    if n == 0 then 1 else 10 * Power(n - 1)
  }

  lemma TwentyDigitsSuffice()
    ensures 0x1_0000_0000_0000_0000 <= Power(20)
  {
    assert Power(4) == 10_000;
    assert Power(8) == 10_000 * Power(4);
    assert Power(12) == 10_000 * Power(8);
    assert Power(16) == 10_000 * Power(12);
    assert Power(20) == 10_000 * Power(16);
  }

  /** The digit loop: fills a buffer from its end. */
  method UintText(value: nat) returns (text: string)
    requires value < 0x1_0000_0000_0000_0000
    ensures text == Digits(value)
  {
    if value == 0 {
      return "0";
    }
    var digits := new char[20];
    var position: nat, rest: nat := 20, value;
    TwentyDigitsSuffice();
    while rest > 0
      invariant 0 <= position <= 20 && rest < Power(position)
      invariant Digits(value) == Leading(rest) + digits[position..]
    {
      ghost var done := digits[position..];
      LastDigit(rest, done);
      position := position - 1;
      digits[position] := DigitChar(rest % 10);
      assert digits[position..] == [DigitChar(rest % 10)] + done;
      rest := rest / 10;
    }
    text := digits[position..];
  }

  /** The digits still to be written; none for zero. */
  function Leading(n: nat): string {
    if n == 0 then "" else Digits(n)
  }

  lemma LastDigit(n: nat, done: string)
    requires n > 0
    ensures Leading(n) + done == Leading(n / 10) + ([DigitChar(n % 10)] + done)
  {
    var d := [DigitChar(n % 10)];
    assert Digits(n) == Leading(n / 10) + d;
    assert Leading(n / 10) + d + done == Leading(n / 10) + (d + done);
  }
}
