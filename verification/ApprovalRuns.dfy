/** Concurrent approval commands on one approval, with revision-checked commits. */
module ApprovalRuns {
  import opened ApprovalLifecycle
  import opened ApprovalService
  import opened Wrappers

  /** What a command is about to commit: the next record, if the store is still at `expected`. */
  datatype Proposal = Proposal(expected: nat, next: Record, command: Option<Command>)

  /** `history` lists every committed record, `commands` what committed each; the store holds the last. */
  datatype System = System(history: seq<Record>, commands: seq<Option<Command>>, pending: map<nat, Proposal>)

  /** `Drop` stands for a crash, a failed check or a failed store call. */
  datatype Event =
    | Request(pid: nat, binding: Binding, digest: string)
    | Prepare(pid: nat, command: Command)
    | Commit(pid: nat)
    | Drop(pid: nat)

  function Latest(s: System): Record
    requires s.history != []
  {
    s.history[|s.history| - 1]
  }

  function StoredRevision(s: System): nat {
    if s.history == [] then 0 else Latest(s).revision
  }

  predicate Enabled(s: System, e: Event) {
    match e
    case Request(p, b, digest) =>
      p !in s.pending && s.history == [] && b.requiredGrants == RequiredGrants(b.tier)
      && ValidRecord(RequestRecord(b, digest))
    case Prepare(p, c) =>
      && p !in s.pending && s.history != [] && !IsReplay(c, Latest(s)) && BrokerAllows(c, Latest(s))
      && TransitionError(Latest(s), Proposed(c, Latest(s))).None?
    case Commit(p) => p in s.pending
    case Drop(p) => p in s.pending
  }

  function Next(s: System, e: Event): System
    requires Enabled(s, e)
  {
    match e
    case Request(p, b, digest) => s.(pending := s.pending[p := Proposal(0, RequestRecord(b, digest), None)])
    case Prepare(p, c) => s.(pending := s.pending[p := Proposal(Latest(s).revision, Proposed(c, Latest(s)), Some(c))])
    case Commit(p) =>
      var proposal := s.pending[p];
      var rest := s.pending - {p};
      if StoredRevision(s) == proposal.expected
      then System(s.history + [proposal.next], s.commands + [proposal.command], rest)
      else s.(pending := rest)
    case Drop(p) => s.(pending := s.pending - {p})
  }

  /** Step `i` is that of its enabled event. */
  ghost predicate StepAt(states: seq<System>, events: seq<Event>, i: nat)
    requires i < |events| && |states| == |events| + 1
  {
    Enabled(states[i], events[i]) && states[i + 1] == Next(states[i], events[i])
  }

  ghost predicate IsRun(states: seq<System>, events: seq<Event>) {
    && |states| == |events| + 1
    && states[0] == System([], [], map[])
    && forall i | 0 <= i < |events| :: StepAt(states, events, i)
  }

  // ----- no lost update

  /** `r` is the first record of an approval. */
  predicate First(r: Record, command: Option<Command>) {
    && command.None? && ValidRecord(r) && r.revision == 1 && r.state.Requested? && r.grants == [] && r.uses == 0
    && r.binding.requiredGrants == RequiredGrants(r.binding.tier)
  }

  /** `r` is what the command makes of `prior`, with the broker's and the contract's consent. */
  predicate Follows(prior: Record, r: Record, command: Option<Command>) {
    && command.Some? && BrokerAllows(command.value, prior) && r == Proposed(command.value, prior)
    && TransitionError(prior, r).None?
  }

  predicate LegalHistory(history: seq<Record>, commands: seq<Option<Command>>) {
    && |commands| == |history|
    && (forall i | 0 <= i < |history| :: history[i].revision == i + 1)
    && (history != [] ==> First(history[0], commands[0]))
    && (forall i | 1 <= i < |history| :: Follows(history[i - 1], history[i], commands[i]))
  }

  predicate LegalProposal(history: seq<Record>, p: Proposal) {
    && p.expected <= |history|
    && if p.expected == 0 then First(p.next, p.command) else Follows(history[p.expected - 1], p.next, p.command)
  }

  predicate Inv(s: System) {
    LegalHistory(s.history, s.commands) && forall p <- s.pending.Keys :: LegalProposal(s.history, s.pending[p])
  }

  lemma HistoryExtends(s: System, p: Proposal)
    requires LegalHistory(s.history, s.commands) && LegalProposal(s.history, p) && StoredRevision(s) == p.expected
    ensures LegalHistory(s.history + [p.next], s.commands + [p.command])
  {
    var history, commands := s.history + [p.next], s.commands + [p.command];
    assert p.expected == |s.history|;
    forall i | 1 <= i < |history| ensures Follows(history[i - 1], history[i], commands[i]) {
      if i < |s.history| {
        assert Follows(s.history[i - 1], s.history[i], s.commands[i]);
      }
    }
  }

  lemma InvPreserved(s: System, e: Event)
    requires Inv(s) && Enabled(s, e)
    ensures Inv(Next(s, e))
  {
    var t := Next(s, e);
    if e.Commit? && StoredRevision(s) == s.pending[e.pid].expected {
      HistoryExtends(s, s.pending[e.pid]);
    }
    forall p | p in t.pending ensures LegalProposal(t.history, t.pending[p]) {
      ProposalKept(s, e, p);
    }
  }

  lemma LongerHistory(history: seq<Record>, r: Record, p: Proposal)
    requires LegalProposal(history, p)
    ensures LegalProposal(history + [r], p)
  {
  }

  lemma ProposalKept(s: System, e: Event, p: nat)
    requires Inv(s) && Enabled(s, e) && p in Next(s, e).pending
    ensures LegalProposal(Next(s, e).history, Next(s, e).pending[p])
  {
    if e.Commit? {
      LongerHistory(s.history, s.pending[e.pid].next, s.pending[p]);
    } else if p in s.pending {
      assert LegalProposal(s.history, s.pending[p]);
    }
  }

  lemma {:induction false} InvOnRuns(states: seq<System>, events: seq<Event>, i: nat)
    requires IsRun(states, events) && i < |states|
    ensures Inv(states[i])
  {
    if i > 0 {
      InvOnRuns(states, events, i - 1);
      assert StepAt(states, events, i - 1);
      InvPreserved(states[i - 1], events[i - 1]);
    }
  }

  /** Commits serialise: each stored record is its command applied to the record stored just before. */
  lemma CommitsSerialise(states: seq<System>, events: seq<Event>, i: nat, k: nat)
    requires IsRun(states, events) && i < |states| && k + 1 < |states[i].history|
    ensures var s := states[i];
            |s.commands| == |s.history| && Follows(s.history[k], s.history[k + 1], s.commands[k + 1])
    ensures states[i].history[k + 1].revision == states[i].history[k].revision + 1
  {
    InvOnRuns(states, events, i);
  }

  // ----- what holds of every committed record

  lemma {:induction false} RecordsValid(history: seq<Record>, commands: seq<Option<Command>>, k: nat)
    requires LegalHistory(history, commands) && k < |history|
    ensures ValidRecord(history[k]) && history[k].binding == history[0].binding
  {
    if k > 0 {
      RecordsValid(history, commands, k - 1);
      assert Follows(history[k - 1], history[k], commands[k]);
    }
  }

  /** The number of committed commands of one kind. */
  function Count(commands: seq<Option<Command>>, op: Operation): nat {
    if commands == [] then 0
    else
      var last := commands[|commands| - 1];
      Count(commands[..|commands| - 1], op) + if last.Some? && last.value.operation == op then 1 else 0
  }

  lemma {:induction false} CountsMatch(history: seq<Record>, commands: seq<Option<Command>>, k: nat)
    requires LegalHistory(history, commands) && k < |history|
    ensures history[k].uses == Count(commands[..k + 1], Consume)
    ensures |history[k].grants| == Count(commands[..k + 1], Give)
  {
    if k > 0 {
      CountsMatch(history, commands, k - 1);
      assert Follows(history[k - 1], history[k], commands[k]);
    } else {
      assert commands[..0] == [];
    }
    CountNext(commands, k, Consume);
    CountNext(commands, k, Give);
  }

  lemma CountNext(commands: seq<Option<Command>>, k: nat, op: Operation)
    requires k < |commands|
    ensures Count(commands[..k + 1], op)
         == Count(commands[..k], op) + if commands[k].Some? && commands[k].value.operation == op then 1 else 0
  {
    assert commands[..k + 1][..k] == commands[..k] && commands[..k + 1][k] == commands[k];
  }

  /** In every run the committed consumes never exceed the maximum, and reach it exactly when consumed. */
  lemma ConsumesBounded(states: seq<System>, events: seq<Event>, i: nat)
    requires IsRun(states, events) && i < |states| && states[i].history != []
    ensures var r := Latest(states[i]);
            && Count(states[i].commands, Consume) == r.uses <= r.binding.maximumUses
            && (r.state.Consumed? <==> Count(states[i].commands, Consume) == r.binding.maximumUses)
  {
    var s := states[i];
    InvOnRuns(states, events, i);
    var k := |s.history| - 1;
    CountsMatch(s.history, s.commands, k);
    RecordsValid(s.history, s.commands, k);
    assert s.commands[..k + 1] == s.commands;
    ConsumedExactlyAtMaximum(Latest(s));
  }

  /** A granted approval holds exactly the grants its tier requires, from different approvers, none the requestor's. */
  lemma GrantedByOthers(states: seq<System>, events: seq<Event>, i: nat)
    requires IsRun(states, events) && i < |states| && states[i].history != []
    ensures var r := Latest(states[i]);
            && (r.state.Granted? || r.state.Consumed? ==>
                  |r.grants| == RequiredGrants(r.binding.tier) == Count(states[i].commands, Give))
            && Distinct(r.grants)
            && forall g <- r.grants ::
                 g.actor != r.binding.requestorActor && g.principal != r.binding.requestorPrincipal
  {
    var s := states[i];
    InvOnRuns(states, events, i);
    var k := |s.history| - 1;
    RecordsValid(s.history, s.commands, k);
    CountsMatch(s.history, s.commands, k);
    assert s.commands[..k + 1] == s.commands;
    forall g | g in Latest(s).grants
      ensures g.actor != Latest(s).binding.requestorActor && g.principal != Latest(s).binding.requestorPrincipal
    {
      assert ValidGrant(Latest(s).binding, Latest(s).updatedAt, g);
    }
  }

  lemma TerminalKept(s: System, e: Event)
    requires Inv(s) && Enabled(s, e) && s.history != [] && Terminal(Latest(s).state)
    ensures Next(s, e).history == s.history && Next(s, e).commands == s.commands
  {
    if e.Commit? {
      assert LegalProposal(s.history, s.pending[e.pid]);
      TerminalRefuses(s, s.pending[e.pid]);
    }
  }

  lemma TerminalRefuses(s: System, p: Proposal)
    requires LegalHistory(s.history, s.commands) && LegalProposal(s.history, p)
    requires s.history != [] && Terminal(Latest(s).state)
    ensures StoredRevision(s) != p.expected
  {
  }

  /** A rejected, expired, consumed or revoked approval never changes again. */
  lemma {:induction false} TerminalForever(states: seq<System>, events: seq<Event>, i: nat, j: nat)
    requires IsRun(states, events) && i <= j < |states|
    requires states[i].history != [] && Terminal(Latest(states[i]).state)
    ensures states[j].history == states[i].history && states[j].commands == states[i].commands
  {
    if i < j {
      TerminalForever(states, events, i, j - 1);
      TerminalAtStep(states, events, j - 1);
    }
  }

  lemma TerminalAtStep(states: seq<System>, events: seq<Event>, i: nat)
    requires IsRun(states, events) && i < |events|
    requires states[i].history != [] && Terminal(Latest(states[i]).state)
    ensures states[i + 1].history == states[i].history && states[i + 1].commands == states[i].commands
  {
    InvOnRuns(states, events, i);
    assert StepAt(states, events, i);
    TerminalKept(states[i], events[i]);
  }

  /** Every use was committed while the approval was granted and current, by the action's owner. */
  lemma UsesAreAuthorised(states: seq<System>, events: seq<Event>, i: nat, k: nat)
    requires IsRun(states, events) && i < |states| && 0 < k < |states[i].history|
    requires states[i].history[k].uses > states[i].history[k - 1].uses
    ensures |states[i].commands| == |states[i].history|
    ensures var prior, c := states[i].history[k - 1], states[i].commands[k];
            && c.Some? && c.value.operation.Consume? && prior.state.Granted? && Current(prior.binding, c.value.now)
            && c.value.actor.id == prior.binding.actionOwner && AuthoritiesHold(c.value.authorities, prior)
            && c.value.proven
  {
    InvOnRuns(states, events, i);
    assert Follows(states[i].history[k - 1], states[i].history[k], states[i].commands[k]);
  }

  // ----- an approval that can never be expired

  const SAMPLE := Binding("f", "requestor", "requestor-principal", "owner", "T1", 0, 0, 10, 1, 2)
  const APPROVER := Actor("approver", 1, true, true, {"approver"}, {"approval.decide"})
  const ENROLLED := Principal("approver-principal", "approver", 1, 1, true, true)
  const GIVE := Command(Give, 1, "give", APPROVER, Some(ENROLLED), [], true, 1)
  const CONSUME :=
    Command(Consume, 2, "consume", Actor("owner", 1, true, true, {}, {"action.request"}), None,
            [Authority(APPROVER, ENROLLED)], true, 2)
  const EXPIRE := Command(Expire, 3, "expire", Actor("service", 1, true, true, {}, {"service.invoke"}), None, [],
                          true, 10)

  /** The sample approval as requested, granted, and used once of its two times. */
  const ASKED := RequestRecord(SAMPLE, "request")
  const GRANTED := Record(SAMPLE, Granted, 2, [Grant("approver", 1, "approver-principal", 1, 1)], 0, 1, "give")
  const USED := GRANTED.(revision := 3, uses := 1, updatedAt := 2, lastOperation := "consume")

  lemma SampleGrant()
    ensures ValidRecord(ASKED) && BrokerAllows(GIVE, ASKED) && Proposed(GIVE, ASKED) == GRANTED
    ensures TransitionError(ASKED, GRANTED).None? && ValidRecord(GRANTED) && !IsReplay(GIVE, ASKED)
  {
    ProposalAccepted(GIVE, ASKED);
  }

  lemma SampleUse()
    ensures BrokerAllows(CONSUME, GRANTED) && Proposed(CONSUME, GRANTED) == USED
    ensures TransitionError(GRANTED, USED).None? && ValidRecord(USED) && !IsReplay(CONSUME, GRANTED)
  {
    SampleGrant();
    assert AuthoritiesHold(CONSUME.authorities, GRANTED);
    ProposalAccepted(CONSUME, GRANTED);
  }

  lemma Extend(states: seq<System>, events: seq<Event>, e: Event) returns (longer: seq<System>)
    requires IsRun(states, events) && Enabled(states[|states| - 1], e)
    ensures IsRun(longer, events + [e]) && longer[|longer| - 1] == Next(states[|states| - 1], e)
  {
    longer := states + [Next(states[|states| - 1], e)];
    var longerEvents := events + [e];
    forall i | 0 <= i < |longerEvents| ensures StepAt(longer, longerEvents, i) {
      if i < |events| {
        assert StepAt(states, events, i);
      }
    }
  }

  /** Preparing and committing one command with nothing in between. */
  lemma ExtendBy(states: seq<System>, events: seq<Event>, c: Command, r: Record)
    returns (states': seq<System>, events': seq<Event>)
    requires IsRun(states, events)
    requires var s := states[|states| - 1];
             && s.pending == map[] && s.history != [] && !IsReplay(c, Latest(s)) && BrokerAllows(c, Latest(s))
             && Proposed(c, Latest(s)) == r && TransitionError(Latest(s), r).None?
    ensures IsRun(states', events') && states'[|states'| - 1].pending == map[]
    ensures states'[|states'| - 1].history == states[|states| - 1].history + [r]
  {
    states' := Extend(states, events, Prepare(0, c));
    events' := events + [Prepare(0, c)];
    states' := Extend(states', events', Commit(0));
    events' := events' + [Commit(0)];
  }

  /**
    A run ends with a granted approval of which one of two uses is spent. Past its validity the
    broker lets an expiry through and the lifecycle contract refuses it.
   */
  lemma AnApprovalThatCannotExpire() returns (states: seq<System>, events: seq<Event>)
    ensures IsRun(states, events) && states[|states| - 1].history == [ASKED, GRANTED, USED]
    ensures USED.state.Granted? && 0 < USED.uses < SAMPLE.maximumUses && SAMPLE.validUntil <= EXPIRE.now
    ensures BrokerAllows(EXPIRE, USED) && TransitionError(USED, Proposed(EXPIRE, USED)).Some?
  {
    SampleGrant();
    SampleUse();
    states, events := [System([], [], map[])], [];
    states := Extend(states, events, Request(0, SAMPLE, "request"));
    events := events + [Request(0, SAMPLE, "request")];
    states := Extend(states, events, Commit(0));
    events := events + [Commit(0)];
    states, events := ExtendBy(states, events, GIVE, GRANTED);
    states, events := ExtendBy(states, events, CONSUME, USED);
    PartlyUsedCannotExpire(EXPIRE, USED);
  }
}
