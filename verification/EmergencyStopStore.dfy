/**
  The two stores behind the emergency stop: the in-memory store and the durable SQLite store.

  Both are modelled on the same record of tables. The differences are kept: the memory store skips an
  audit whose identifier it already holds and keeps a sorted identifier list, while the durable store
  inserts the audit row in the same transaction, so a taken identifier or any failed statement rolls
  the whole call back.
 */
module EmergencyStopStore {
  import opened StopScope
  import opened Wrappers
  import Sorting

  datatype Command = Command(requestId: string, idempotencyKey: string, scope: Scope, actor: string, reason: string)

  datatype Authority = Authority(actorRevision: nat, authorizationDigest: string, policyDigest: string)

  datatype Candidate = Candidate(command: Command, authority: Authority, requestDigest: string, activatedAt: int)

  datatype State = State(scope: Scope, epoch: nat, active: bool, command: Command, authority: Authority,
                         requestDigest: string, activatedAt: int)

  datatype Acknowledgement = Acknowledgement(controlId: string, epoch: nat, outcome: string, evidence: string)

  /** What an audited decision records; its digest is its audit identifier. */
  datatype Content =
    | Activation(state: State)
    | ControlAck(state: State, ack: Acknowledgement)
    | Denial(command: Command, reason: string)
    | NoContent

  datatype Decision = Decision(content: Content, digest: string)

  datatype Audit = Audit(id: string, decision: Decision, delivered: bool)

  /** What the memory store's table reads as where it holds no audit. */
  const NO_AUDIT := Audit("", Decision(NoContent, ""), false)

  datatype Record = Record(state: State, decision: Decision, auditId: string)

  datatype RequestKey = RequestKey(organization: string, tenant: string, actor: string, idempotencyKey: string)

  datatype Tables = Tables(
    epoch: nat,
    states: map<Scope, State>,
    requests: map<RequestKey, (string, Record)>,
    controls: map<(Scope, string), (Acknowledgement, string)>,
    audits: map<string, Audit>)

  const EMPTY := Tables(0, map[], map[], map[], map[])

  datatype Activated = New(record: Record) | Replay(record: Record) | Conflict | AlreadyActive | Unavailable

  datatype Recorded =
    | ControlNew(audit: Audit)
    | ControlReplay(audit: Audit)
    | ControlConflict
    | StateStale
    | ControlUnavailable

  /** The digest of a decision; nothing is assumed about it. */
  type Hash = Content -> string

  function Decide(hash: Hash, content: Content): Decision {
    Decision(content, hash(content))
  }

  function NewAudit(d: Decision): Audit {
    Audit(d.digest, d, false)
  }

  function KeyOf(c: Candidate): RequestKey {
    RequestKey(c.command.scope.organization, c.command.scope.tenant, c.command.actor, c.command.idempotencyKey)
  }

  function NextState(t: Tables, c: Candidate): State {
    State(c.command.scope, t.epoch + 1, true, c.command, c.authority, c.requestDigest, c.activatedAt)
  }

  /** The record a successful activation would store. */
  function NextRecord(hash: Hash, t: Tables, c: Candidate): Record {
    var state := NextState(t, c);
    var decision := Decide(hash, Activation(state));
    Record(state, decision, decision.digest)
  }

  function PutAudit(t: Tables, audit: Audit): Tables {
    if audit.id in t.audits then t else t.(audits := t.audits[audit.id := audit])
  }

  // ---------- The operations of the memory store

  function MemoryActivate(hash: Hash, t: Tables, c: Candidate): (Tables, Activated) {
    var key := KeyOf(c);
    if key in t.requests then
      (t, if t.requests[key].0 == c.requestDigest then Replay(t.requests[key].1) else Conflict)
    else if c.command.scope in t.states && t.states[c.command.scope].active then
      (t, AlreadyActive)
    else
      var record := NextRecord(hash, t, c);
      (PutAudit(t.(epoch := t.epoch + 1, states := t.states[c.command.scope := record.state],
                   requests := t.requests[key := (c.requestDigest, record)]), NewAudit(record.decision)),
       New(record))
  }

  function MemoryEffective(t: Tables, c: CaseRef): Option<State> {
    var whole := Global(c.organization, c.tenant);
    var one := Case(c.organization, c.tenant, c.caseId);
    if whole in t.states && t.states[whole].active then Some(t.states[whole])
    else if c.caseId != "" && one in t.states && t.states[one].active then Some(t.states[one])
    else None
  }

  function MemoryRecord(t: Tables, state: State, ack: Acknowledgement, d: Decision): (Tables, Recorded) {
    var key := (state.scope, ack.controlId);
    if state.scope !in t.states || t.states[state.scope] != state then (t, StateStale)
    else if key in t.controls then
      (t, if t.controls[key].0 != ack then ControlConflict
          else ControlReplay(if t.controls[key].1 in t.audits then t.audits[t.controls[key].1] else NO_AUDIT))
    else (PutAudit(t.(controls := t.controls[key := (ack, d.digest)]), NewAudit(d)), ControlNew(NewAudit(d)))
  }

  function MarkDelivered(t: Tables, id: string): (Tables, bool) {
    if id in t.audits then (t.(audits := t.audits[id := t.audits[id].(delivered := true)]), true) else (t, false)
  }

  // ---------- The operations of the durable store

  function SqliteActivate(hash: Hash, t: Tables, c: Candidate): (Tables, Activated) {
    var key := KeyOf(c);
    if key in t.requests then
      (t, if t.requests[key].0 == c.requestDigest then Replay(t.requests[key].1) else Conflict)
    else if c.command.scope in t.states then
      (t, AlreadyActive)
    else
      var record := NextRecord(hash, t, c);
      if record.auditId in t.audits then (t, Unavailable)
      else
        (t.(epoch := t.epoch + 1, states := t.states[c.command.scope := record.state],
            requests := t.requests[key := (c.requestDigest, record)],
            audits := t.audits[record.auditId := NewAudit(record.decision)]),
         New(record))
  }

  function SqliteEffective(t: Tables, c: CaseRef): Option<State> {
    var whole := Global(c.organization, c.tenant);
    var one := Case(c.organization, c.tenant, c.caseId);
    if whole in t.states then Some(t.states[whole])
    else if c.caseId != "" && one in t.states then Some(t.states[one])
    else None
  }

  function SqliteRecord(t: Tables, state: State, ack: Acknowledgement, d: Decision): (Tables, Recorded) {
    var key := (state.scope, ack.controlId);
    if state.scope !in t.states || t.states[state.scope] != state then (t, StateStale)
    else if key in t.controls then
      (t, if t.controls[key].0 != ack then ControlConflict
          else if t.controls[key].1 in t.audits then ControlReplay(t.audits[t.controls[key].1])
          else ControlUnavailable)
    else if d.digest in t.audits then (t, ControlUnavailable)
    else (t.(controls := t.controls[key := (ack, d.digest)], audits := t.audits[d.digest := NewAudit(d)]),
          ControlNew(NewAudit(d)))
  }

  // ---------- Pending audits, in identifier order

  function Self(id: string): string {
    id
  }

  ghost predicate IsOrdering(ids: set<string>, s: seq<string>) {
    Sorting.SortedBy(Self, s) && multiset(s) == multiset(ids)
  }

  /** Inserting a new identifier keeps the order. */
  lemma InsertOrders(ids: set<string>, id: string, s: seq<string>)
    requires IsOrdering(ids, s) && id !in ids
    ensures IsOrdering(ids + {id}, Sorting.Insert(Self, id, s))
  {
    Sorting.InsertSorted(Self, id, s);
    assert multiset(ids + {id}) == multiset(ids) + multiset{id};
  }

  lemma OrderingUnique(ids: set<string>, a: seq<string>, b: seq<string>)
    requires IsOrdering(ids, a) && IsOrdering(ids, b)
    ensures a == b
  {
    Sorting.SortedUnique(Self, a, b);
  }

  function Undelivered(audits: map<string, Audit>): set<string> {
    set id | id in audits && !audits[id].delivered
  }

  /** The rows named by the leading identifiers of `s`, cut at the limit. */
  ghost predicate RowsOf(audits: map<string, Audit>, limit: nat, s: seq<string>, rows: seq<Audit>) {
    && |rows| == (if |s| < limit then |s| else limit)
    && forall i | 0 <= i < |rows| :: s[i] in audits && rows[i] == audits[s[i]]
  }

  /** What the durable store's query returns: the undelivered rows by identifier, cut at the limit. */
  ghost predicate PendingRows(audits: map<string, Audit>, limit: nat, rows: seq<Audit>) {
    exists s: seq<string> :: IsOrdering(Undelivered(audits), s) && RowsOf(audits, limit, s, rows)
  }

  lemma PendingRowsUnique(audits: map<string, Audit>, limit: nat, a: seq<Audit>, b: seq<Audit>)
    requires PendingRows(audits, limit, a) && PendingRows(audits, limit, b)
    ensures a == b
  {
    var s: seq<string> :| IsOrdering(Undelivered(audits), s) && RowsOf(audits, limit, s, a);
    var r: seq<string> :| IsOrdering(Undelivered(audits), r) && RowsOf(audits, limit, r, b);
    OrderingUnique(Undelivered(audits), s, r);
  }

  /** The undelivered identifiers of a list, in its order. */
  ghost function Keep(audits: map<string, Audit>, order: seq<string>): seq<string> {
    if order == [] then []
    else
      var last := |order| - 1;
      Keep(audits, order[..last]) + (if order[last] in Undelivered(audits) then [order[last]] else [])
  }

  lemma {:induction false} KeepMembers(audits: map<string, Audit>, order: seq<string>)
    requires forall i, j | 0 <= i < j < |order| :: order[i] != order[j]
    ensures forall id :: id in Keep(audits, order) <==> id in order && id in Undelivered(audits)
    ensures forall i, j | 0 <= i < j < |Keep(audits, order)| :: Keep(audits, order)[i] != Keep(audits, order)[j]
  {
    if order != [] {
      KeepMembers(audits, order[..|order| - 1]);
      assert order == order[..|order| - 1] + [order[|order| - 1]];
    }
  }

  lemma {:induction false} KeepSorted(audits: map<string, Audit>, order: seq<string>)
    requires Sorting.SortedBy(Self, order)
    ensures Sorting.SortedBy(Self, Keep(audits, order))
    ensures forall id <- Keep(audits, order) :: id in order
  {
    if order != [] {
      var prefix, last := order[..|order| - 1], order[|order| - 1];
      KeepSorted(audits, prefix);
      forall k | 0 <= k < |Keep(audits, prefix)|
        ensures Sorting.Leq(Keep(audits, prefix)[k], last)
      {
        assert Keep(audits, prefix)[k] in Keep(audits, prefix);
        var m :| 0 <= m < |prefix| && prefix[m] == Keep(audits, prefix)[k];
        assert Sorting.Leq(Self(order[m]), Self(order[|order| - 1]));
      }
    }
  }

  lemma {:induction false} DistinctMultiset(s: seq<string>, ids: set<string>)
    requires forall i, j | 0 <= i < j < |s| :: s[i] != s[j]
    requires forall id :: id in s <==> id in ids
    ensures multiset(s) == multiset(ids)
  {
    if s != [] {
      var last := s[|s| - 1];
      assert s == s[..|s| - 1] + [last];
      DistinctMultiset(s[..|s| - 1], ids - {last});
      assert ids == (ids - {last}) + {last};
    }
  }

  lemma {:induction false} OrderingDistinct(ids: set<string>, s: seq<string>)
    requires multiset(s) == multiset(ids)
    ensures forall i, j | 0 <= i < j < |s| :: s[i] != s[j]
    ensures forall id :: id in s <==> id in ids
  {
    forall i, j | 0 <= i < j < |s|
      ensures s[i] != s[j]
    {
      assert s == s[..i] + [s[i]] + s[i + 1..j] + [s[j]] + s[j + 1..];
      assert multiset(s)[s[i]] <= 1;
    }
    forall id
      ensures id in s <==> id in ids
    {
      assert id in s <==> id in multiset(s);
    }
  }

  lemma KeepOrders(audits: map<string, Audit>, order: seq<string>)
    requires IsOrdering(audits.Keys, order)
    ensures IsOrdering(Undelivered(audits), Keep(audits, order))
  {
    OrderingDistinct(audits.Keys, order);
    KeepMembers(audits, order);
    KeepSorted(audits, order);
    DistinctMultiset(Keep(audits, order), Undelivered(audits));
  }

  const MAXIMUM_PENDING := 1024

  predicate ValidLimit(limit: int) {
    0 < limit <= MAXIMUM_PENDING
  }

  /** The identifiers in order. */
  ghost function Ordered(ids: set<string>): seq<string> {
    if ids == {} then []
    else
      var id :| id in ids;
      Sorting.Insert(Self, id, Ordered(ids - {id}))
  }

  lemma {:induction false} OrderedOrders(ids: set<string>)
    ensures IsOrdering(ids, Ordered(ids))
  {
    if ids != {} {
      var id :| id in ids && Ordered(ids) == Sorting.Insert(Self, id, Ordered(ids - {id}));
      OrderedOrders(ids - {id});
      InsertOrders(ids - {id}, id, Ordered(ids - {id}));
      assert ids == (ids - {id}) + {id};
    }
  }

  lemma OrderedIsOnly(ids: set<string>, s: seq<string>)
    requires IsOrdering(ids, s)
    ensures s == Ordered(ids)
  {
    OrderedOrders(ids);
    OrderingUnique(ids, s, Ordered(ids));
  }

  /** The rows of the leading identifiers, at most `limit` of them. */
  ghost function Rows(audits: map<string, Audit>, limit: nat, ids: seq<string>): seq<Audit>
    requires forall id <- ids :: id in audits
  {
    var n := if |ids| < limit then |ids| else limit;
    seq(n, i requires 0 <= i < n => assert ids[i] in ids; audits[ids[i]])
  }

  lemma KeepListed(audits: map<string, Audit>, order: seq<string>)
    ensures forall id <- Keep(audits, order) :: id in audits
  {
  }

  lemma OrderedListed(ids: set<string>)
    ensures forall id <- Ordered(ids) :: id in ids
  {
    OrderedOrders(ids);
    OrderingDistinct(ids, Ordered(ids));
  }

  /** The memory store's answer: a walk over all identifiers that keeps the undelivered ones. */
  ghost function MemoryPending(t: Tables, limit: int): Result<seq<Audit>> {
    if !ValidLimit(limit) then Err("audit_limit_invalid")
    else
      KeepListed(t.audits, Ordered(t.audits.Keys));
      Ok(Rows(t.audits, limit, Keep(t.audits, Ordered(t.audits.Keys))))
  }

  /** The durable store's answer: the undelivered identifiers, ordered by the query. */
  ghost function SqlitePending(t: Tables, limit: int): Result<seq<Audit>> {
    if !ValidLimit(limit) then Err("audit_limit_invalid")
    else
      OrderedListed(Undelivered(t.audits));
      Ok(Rows(t.audits, limit, Ordered(Undelivered(t.audits))))
  }

  /** Filtering the ordered identifiers is ordering the filtered ones. */
  lemma PendingAgrees(t: Tables, limit: int)
    ensures MemoryPending(t, limit) == SqlitePending(t, limit)
  {
    OrderedOrders(t.audits.Keys);
    KeepOrders(t.audits, Ordered(t.audits.Keys));
    OrderedIsOnly(Undelivered(t.audits), Keep(t.audits, Ordered(t.audits.Keys)));
  }

  /** The answer is the undelivered audits in identifier order, cut at the limit. */
  lemma PendingIsRows(t: Tables, limit: int)
    requires ValidLimit(limit)
    ensures SqlitePending(t, limit).Ok? && PendingRows(t.audits, limit, SqlitePending(t, limit).value)
  {
    var s := Ordered(Undelivered(t.audits));
    OrderedOrders(Undelivered(t.audits));
    OrderedListed(Undelivered(t.audits));
    var rows := SqlitePending(t, limit).value;
    forall i | 0 <= i < |rows| ensures s[i] in t.audits && rows[i] == t.audits[s[i]] {
      assert s[i] in s;
    }
    assert RowsOf(t.audits, limit, s, rows);
  }

  lemma RowsArePending(t: Tables, limit: int, rows: seq<Audit>)
    requires ValidLimit(limit) && PendingRows(t.audits, limit, rows)
    ensures Ok(rows) == SqlitePending(t, limit) == MemoryPending(t, limit)
  {
    PendingIsRows(t, limit);
    PendingRowsUnique(t.audits, limit, rows, SqlitePending(t, limit).value);
    PendingAgrees(t, limit);
  }

  /** The in-memory store. */
  class MemoryStore {
    const hash: Hash
    var tables: Tables
    var order: seq<string>

    ghost predicate Valid()
      reads this
    {
      IsOrdering(tables.audits.Keys, order) && (forall id <- tables.audits :: tables.audits[id].id == id)
    }

    constructor (h: Hash)
      ensures Valid() && tables == EMPTY && hash == h
    {
      hash, tables, order := h, EMPTY, [];
    }

    method AddAudit(audit: Audit)
      requires Valid()
      modifies this
      ensures Valid() && tables == PutAudit(old(tables), audit)
    {
      if audit.id in tables.audits {
        return;
      }
      ghost var before := tables.audits.Keys;
      tables := tables.(audits := tables.audits[audit.id := audit]);
      assert tables.audits.Keys == before + {audit.id};
      InsertOrders(before, audit.id, order);
      order := Sorting.Insert(Self, audit.id, order);
    }

    method Activate(c: Candidate) returns (r: Activated)
      requires Valid()
      modifies this
      ensures Valid() && (tables, r) == MemoryActivate(hash, old(tables), c)
    {
      var key := KeyOf(c);
      if key in tables.requests {
        var previous := tables.requests[key];
        return if previous.0 == c.requestDigest then Replay(previous.1) else Conflict;
      }
      if c.command.scope in tables.states && tables.states[c.command.scope].active {
        return AlreadyActive;
      }
      var record := NextRecord(hash, tables, c);
      tables := tables.(epoch := tables.epoch + 1, states := tables.states[c.command.scope := record.state],
                        requests := tables.requests[key := (c.requestDigest, record)]);
      AddAudit(NewAudit(record.decision));
      r := New(record);
    }

    method RecordControl(state: State, ack: Acknowledgement, d: Decision) returns (r: Recorded)
      requires Valid()
      modifies this
      ensures Valid() && (tables, r) == MemoryRecord(old(tables), state, ack, d)
    {
      if state.scope !in tables.states || tables.states[state.scope] != state {
        return StateStale;
      }
      var key := (state.scope, ack.controlId);
      if key in tables.controls {
        var previous := tables.controls[key];
        if previous.0 != ack {
          return ControlConflict;
        }
        return ControlReplay(if previous.1 in tables.audits then tables.audits[previous.1] else NO_AUDIT);
      }
      tables := tables.(controls := tables.controls[key := (ack, d.digest)]);
      AddAudit(NewAudit(d));
      r := ControlNew(NewAudit(d));
    }

    /** Walks the sorted identifier list and stops at the limit. */
    method PendingAudits(limit: int) returns (r: Result<seq<Audit>>)
      requires Valid()
      ensures r == MemoryPending(tables, limit)
      ensures r.Ok? <==> ValidLimit(limit)
      ensures r.Ok? ==> PendingRows(tables.audits, limit, r.value)
    {
      if limit <= 0 || limit > MAXIMUM_PENDING {
        return Err("audit_limit_invalid");
      }
      OrderingDistinct(tables.audits.Keys, order);
      var rows: seq<Audit> := [];
      ghost var ids: seq<string> := [];
      var i := 0;
      while i < |order| && |rows| < limit
        invariant 0 <= i <= |order| && |rows| == |ids| <= limit
        invariant ids == Keep(tables.audits, order[..i])
        invariant forall k | 0 <= k < |rows| :: ids[k] in tables.audits && rows[k] == tables.audits[ids[k]]
      {
        KeepOneMore(tables.audits, order, i);
        assert order[i] in order;
        if !tables.audits[order[i]].delivered {
          rows := rows + [tables.audits[order[i]]];
          ids := ids + [order[i]];
        }
        i := i + 1;
      }
      WalkedRows(tables.audits, order, i, limit, ids, rows);
      RowsArePending(tables, limit, rows);
      return Ok(rows);
    }

    method MarkAuditDelivered(id: string) returns (found: bool)
      requires Valid()
      modifies this`tables
      ensures Valid() && (tables, found) == MarkDelivered(old(tables), id)
    {
      found := id in tables.audits;
      if found {
        ghost var keys := tables.audits.Keys;
        tables := tables.(audits := tables.audits[id := tables.audits[id].(delivered := true)]);
        assert tables.audits.Keys == keys;
      }
    }
  }

  lemma KeepOneMore(audits: map<string, Audit>, order: seq<string>, i: nat)
    requires i < |order|
    ensures Keep(audits, order[..i + 1]) == Keep(audits, order[..i]) + Keep(audits, [order[i]])
  {
    assert order[..i + 1][..i] == order[..i] && [order[i]][..0] == [];
  }

  /** Stopping at the limit, or at the end of the list, yields the rows of the query. */
  lemma WalkedRows(audits: map<string, Audit>, order: seq<string>, i: nat, limit: nat, ids: seq<string>,
                   rows: seq<Audit>)
    requires IsOrdering(audits.Keys, order) && i <= |order| && (i == |order| || |rows| == limit)
    requires |rows| == |ids| <= limit && ids == Keep(audits, order[..i])
    requires forall k | 0 <= k < |rows| :: ids[k] in audits && rows[k] == audits[ids[k]]
    ensures PendingRows(audits, limit, rows)
  {
    var s := Keep(audits, order);
    KeepOrders(audits, order);
    KeepPrefix(audits, order, i);
    if i == |order| {
      assert order[..i] == order;
    }
    assert RowsOf(audits, limit, s, rows);
  }

  lemma {:induction false} KeepPrefix(audits: map<string, Audit>, order: seq<string>, i: nat)
    requires i <= |order|
    ensures Keep(audits, order[..i]) <= Keep(audits, order)
    decreases |order| - i
  {
    if i < |order| {
      KeepPrefix(audits, order, i + 1);
      assert order[..i + 1][..i] == order[..i];
    } else {
      assert order[..i] == order;
    }
  }

  /** The durable store. `commits` says whether every statement of the transaction went through. */
  class SqliteStore {
    const hash: Hash
    var tables: Tables

    constructor (h: Hash)
      ensures tables == EMPTY && hash == h
    {
      hash, tables := h, EMPTY;
    }

    /** Works on the transaction's copy of the tables and publishes it only on commit. */
    method Activate(c: Candidate, commits: bool) returns (r: Activated)
      modifies this
      ensures commits ==> (tables, r) == SqliteActivate(hash, old(tables), c)
      ensures !commits ==> tables == old(tables) && !r.New?
    {
      var tx := tables;
      var key := KeyOf(c);
      if key in tx.requests {
        var previous := tx.requests[key];
        return if previous.0 == c.requestDigest then Replay(previous.1) else Conflict;
      }
      if c.command.scope in tx.states {
        return AlreadyActive;
      }
      var record := NextRecord(hash, tx, c);
      tx := tx.(epoch := tx.epoch + 1);
      tx := tx.(states := tx.states[c.command.scope := record.state]);
      tx := tx.(requests := tx.requests[key := (c.requestDigest, record)]);
      if record.auditId in tx.audits {
        return Unavailable;
      }
      tx := tx.(audits := tx.audits[record.auditId := NewAudit(record.decision)]);
      if !commits {
        return Unavailable;
      }
      tables := tx;
      r := New(record);
    }

    method RecordControl(state: State, ack: Acknowledgement, d: Decision, commits: bool) returns (r: Recorded)
      modifies this
      ensures commits ==> (tables, r) == SqliteRecord(old(tables), state, ack, d)
      ensures !commits ==> tables == old(tables) && !r.ControlNew?
    {
      var tx := tables;
      if state.scope !in tx.states || tx.states[state.scope] != state {
        return StateStale;
      }
      var key := (state.scope, ack.controlId);
      if key in tx.controls {
        var previous := tx.controls[key];
        if previous.0 != ack {
          return ControlConflict;
        }
        return if previous.1 in tx.audits then ControlReplay(tx.audits[previous.1]) else ControlUnavailable;
      }
      tx := tx.(controls := tx.controls[key := (ack, d.digest)]);
      if d.digest in tx.audits {
        return ControlUnavailable;
      }
      tx := tx.(audits := tx.audits[d.digest := NewAudit(d)]);
      if !commits {
        return ControlUnavailable;
      }
      tables := tx;
      r := ControlNew(NewAudit(d));
    }

    /** The query selects the undelivered rows in identifier order; the loop reads at most `limit` of them. */
    method PendingAudits(limit: int) returns (r: Result<seq<Audit>>)
      ensures r == SqlitePending(tables, limit)
      ensures r.Ok? <==> ValidLimit(limit)
      ensures r.Ok? ==> PendingRows(tables.audits, limit, r.value)
    {
      if limit <= 0 || limit > MAXIMUM_PENDING {
        return Err("audit_limit_invalid");
      }
      var selected := OrderById(Undelivered(tables.audits));
      OrderingDistinct(Undelivered(tables.audits), selected);
      var rows: seq<Audit> := [];
      for i := 0 to if |selected| < limit then |selected| else limit
        invariant |rows| == i
        invariant forall k | 0 <= k < i :: selected[k] in tables.audits && rows[k] == tables.audits[selected[k]]
      {
        assert selected[i] in selected;
        rows := rows + [tables.audits[selected[i]]];
      }
      assert RowsOf(tables.audits, limit, selected, rows);
      RowsArePending(tables, limit, rows);
      return Ok(rows);
    }
  }

  method OrderById(ids: set<string>) returns (s: seq<string>)
    ensures IsOrdering(ids, s)
  {
    s := [];
    var todo := ids;
    while todo != {}
      invariant todo <= ids && IsOrdering(ids - todo, s)
      decreases |todo|
    {
      var id :| id in todo;
      InsertOrders(ids - todo, id, s);
      s := Sorting.Insert(Self, id, s);
      assert ids - (todo - {id}) == (ids - todo) + {id};
      todo := todo - {id};
    }
    assert ids - todo == ids;
  }
}
