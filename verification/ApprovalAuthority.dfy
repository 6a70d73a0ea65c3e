/** Who may do what to an approval, and what each command makes of it, told on the fields of both. */
module ApprovalAuthority {
  import opened ApprovalLifecycle
  import opened ApprovalRuns
  import opened ApprovalService
  import opened Wrappers

  /** An actor of this case, not revoked, who holds the permission. */
  predicate Acts(a: Actor, permission: string) {
    a.revision > 0 && a.inScope && a.active && permission in a.permissions
  }

  /** A human approver, enrolled for exactly this actor, who is not the requestor in either identity. */
  predicate Approves(a: Actor, p: Principal, b: Binding) {
    && Acts(a, "approval.decide") && "approver" in a.roles
    && p.human && p.enrolled && p.enrollment > 0 && p.actor == a.id && p.actorRevision == a.revision
    && a.id != b.requestorActor && p.id != b.requestorPrincipal
  }

  lemma ApprovesExactly(a: Actor, p: Principal, b: Binding)
    ensures ApproverError(a, p, b).None? <==> Approves(a, p, b)
  {
  }

  /** One approver for each grant, in order: the same person as then, no older, and still entitled. */
  predicate StandsBehind(a: Authority, g: Grant, b: Binding) {
    && a.actor.id == g.actor && a.principal.id == g.principal
    && g.actorRevision <= a.actor.revision && g.enrollment <= a.principal.enrollment
    && Approves(a.actor, a.principal, b)
  }

  predicate AllStand(authorities: seq<Authority>, r: Record) {
    && |authorities| == |r.grants| == r.binding.requiredGrants
    && forall i | 0 <= i < |r.grants| :: StandsBehind(authorities[i], r.grants[i], r.binding)
  }

  lemma StandsExactly(a: Authority, g: Grant, b: Binding)
    ensures StillEligible(a, g, b) <==> StandsBehind(a, g, b)
  {
    ApprovesExactly(a.actor, a.principal, b);
  }

  lemma AllStandExactly(authorities: seq<Authority>, r: Record)
    ensures AuthoritiesHold(authorities, r) <==> AllStand(authorities, r)
  {
    if |authorities| == |r.grants| {
      forall i | 0 <= i < |r.grants|
        ensures StillEligible(authorities[i], r.grants[i], r.binding)
           <==> StandsBehind(authorities[i], r.grants[i], r.binding)
      {
        StandsExactly(authorities[i], r.grants[i], r.binding);
      }
    }
  }

  /** What each command needs of its actor, of the record's state and of the time. */
  predicate Authorised(c: Command, r: Record) {
    match c.operation
    case Give =>
      && r.state.Requested? && r.binding.validFrom <= c.now < r.binding.validUntil && c.proven
      && c.principal.Some? && Approves(c.actor, c.principal.value, r.binding)
    case Reject => r.state.Requested? && Acts(c.actor, "approval.decide")
    case Expire =>
      (r.state.Requested? || r.state.Granted?) && r.binding.validUntil <= c.now && Acts(c.actor, "service.invoke")
    case Consume =>
      && r.state.Granted? && r.binding.validFrom <= c.now < r.binding.validUntil && c.proven
      && c.actor.id == r.binding.actionOwner && Acts(c.actor, "action.request") && AllStand(c.authorities, r)
    case Revoke => (r.state.Requested? || r.state.Granted?) && Acts(c.actor, "approval.decide")
  }

  /** The broker lets a command through exactly when it is authorised and meant for this revision. */
  lemma BrokerAllowsExactly(c: Command, r: Record)
    ensures BrokerAllows(c, r) <==> c.expectedRevision == r.revision && Authorised(c, r)
  {
    AllStandExactly(c.authorities, r);
    if c.principal.Some? {
      ApprovesExactly(c.actor, c.principal.value, r.binding);
    }
  }

  /** Time has not gone back, a grant is of a new approver, and an expiry is of an approval never used. */
  predicate Timely(c: Command, r: Record) {
    && r.updatedAt <= c.now && (c.operation.Expire? ==> r.uses == 0)
    && (c.operation.Give? && c.principal.Some? ==>
          forall g <- r.grants :: g.actor != c.actor.id && g.principal != c.principal.value.id)
  }

  /** A command on a valid record is carried out exactly when it is authorised, in turn and timely. */
  lemma CarriedOutExactly(c: Command, r: Record)
    requires ValidRecord(r)
    ensures BrokerAllows(c, r) && TransitionError(r, Proposed(c, r)).None?
       <==> c.expectedRevision == r.revision && Authorised(c, r) && Timely(c, r)
  {
    BrokerAllowsExactly(c, r);
    if BrokerAllows(c, r) {
      ProposalAccepted(c, r);
    }
  }

  /** What a command changes, and that it changes nothing else. */
  predicate Changes(c: Command, prior: Record, r: Record) {
    && r.revision == prior.revision + 1 && r.binding == prior.binding
    && r.updatedAt == c.now && r.lastOperation == c.digest
    && match c.operation
       case Give =>
         && c.principal.Some? && r.uses == prior.uses && |r.grants| == |prior.grants| + 1
         && r.grants[..|prior.grants|] == prior.grants
         && r.grants[|prior.grants|]
            == Grant(c.actor.id, c.actor.revision, c.principal.value.id, c.principal.value.enrollment, c.now)
         && (r.state.Granted? <==> |r.grants| == r.binding.requiredGrants)
         && (r.state.Granted? || r.state == prior.state)
       case Consume =>
         && r.uses == prior.uses + 1 && r.grants == prior.grants
         && (r.state.Consumed? <==> r.uses == r.binding.maximumUses) && (r.state.Consumed? || r.state == prior.state)
       case Reject => r.state.Rejected? && r.grants == prior.grants && r.uses == prior.uses
       case Expire => r.state.Expired? && r.grants == prior.grants && r.uses == prior.uses
       case Revoke => r.state.Revoked? && r.grants == prior.grants && r.uses == prior.uses
  }

  lemma ProposedChanges(c: Command, r: Record)
    requires ValidRecord(r) && BrokerAllows(c, r)
    ensures Changes(c, r, Proposed(c, r))
  {
    var next := Proposed(c, r);
    if c.operation.Give? {
      assert next.grants[..|r.grants|] == r.grants;
    }
  }

  /** In every run each committed command was authorised on the record before it, in turn and timely. */
  lemma CommitsAreAuthorised(states: seq<System>, events: seq<Event>, i: nat, k: nat)
    requires IsRun(states, events) && i < |states| && 0 < k < |states[i].history|
    ensures |states[i].commands| == |states[i].history| && states[i].commands[k].Some?
    ensures var c, prior, r := states[i].commands[k].value, states[i].history[k - 1], states[i].history[k];
            c.expectedRevision == prior.revision && Authorised(c, prior) && Timely(c, prior) && Changes(c, prior, r)
  {
    var s := states[i];
    InvOnRuns(states, events, i);
    RecordsValid(s.history, s.commands, k - 1);
    assert Follows(s.history[k - 1], s.history[k], s.commands[k]);
    CarriedOutExactly(s.commands[k].value, s.history[k - 1]);
    ProposedChanges(s.commands[k].value, s.history[k - 1]);
  }

  /** Every grant of a stored record was given by an entitled human approver, in the approval's validity. */
  lemma {:induction false} GrantsAreHuman(states: seq<System>, events: seq<Event>, i: nat, k: nat, g: nat)
    requires IsRun(states, events) && i < |states| && k < |states[i].history| && g < |states[i].history[k].grants|
    ensures |states[i].commands| == |states[i].history|
    ensures exists m: nat ::
              && 0 < m <= k && states[i].commands[m].Some?
              && GrantedBy(states[i].commands[m].value, states[i].history[k].binding, states[i].history[k].grants[g])
    decreases k
  {
    var s := states[i];
    InvOnRuns(states, events, i);
    assert First(s.history[0], s.commands[0]);
    if k > 0 {
      CommitsAreAuthorised(states, events, i, k);
      var prior, r := s.history[k - 1], s.history[k];
      GrantsGrow(s.commands[k].value, prior, r, g);
      if g < |prior.grants| {
        GrantsAreHuman(states, events, i, k - 1, g);
      }
    }
  }

  /** The command that gave the grant `g`. */
  predicate GrantedBy(c: Command, b: Binding, g: Grant) {
    && c.operation.Give? && c.proven && b.validFrom <= c.now < b.validUntil
    && c.principal.Some? && Approves(c.actor, c.principal.value, b)
    && g == Grant(c.actor.id, c.actor.revision, c.principal.value.id, c.principal.value.enrollment, c.now)
  }

  lemma GrantsGrow(c: Command, prior: Record, r: Record, g: nat)
    requires Authorised(c, prior) && Changes(c, prior, r) && g < |r.grants|
    ensures r.binding == prior.binding
    ensures if g < |prior.grants| then r.grants[g] == prior.grants[g] else GrantedBy(c, r.binding, r.grants[g])
  {
    if g < |prior.grants| {
      assert r.grants[..|prior.grants|][g] == r.grants[g];
    }
  }

  /** A request makes an approval exactly when its limits are sound. */
  lemma RequestsAreSound(b: Binding, digest: string)
    ensures ValidRecord(RequestRecord(b, digest)) <==>
            b.validFrom < b.validUntil && 0 < b.requiredGrants <= 16 && 0 < b.maximumUses <= 1000
    ensures var r := RequestRecord(b, digest);
            && r.binding == b && r.state.Requested? && r.revision == 1 && r.grants == [] && r.uses == 0
            && r.updatedAt == b.requestedAt && r.lastOperation == digest
  {
  }

  /** A command counts as a replay exactly when it names the revision and the digest of the last commit. */
  lemma ReplaysAreOfTheLastCommit(states: seq<System>, events: seq<Event>, i: nat, c: Command)
    requires IsRun(states, events) && i < |states| && |states[i].history| > 1
    ensures |states[i].commands| == |states[i].history| && states[i].commands[|states[i].history| - 1].Some?
    ensures var last := states[i].commands[|states[i].history| - 1].value;
            IsReplay(c, Latest(states[i])) <==> c.digest == last.digest && c.expectedRevision == last.expectedRevision
  {
    CommitsAreAuthorised(states, events, i, |states[i].history| - 1);
  }
}
