/** Emergency-stop scopes, and which executions a scope covers. */
module StopScope {
  import Delimited

  /** The case an execution, a network lease or a remote job belongs to. */
  datatype CaseRef = CaseRef(organization: string, tenant: string, caseId: string)

  /** A validated stop scope: one tenant of an organization, or one case in it. */
  datatype Scope =
    | Global(organization: string, tenant: string)
    | Case(organization: string, tenant: string, caseId: string)

  predicate ValidScope(s: Scope) {
    s.Case? ==> s.caseId != ""
  }

  /** The test every control applies to pick the work it must contain. */
  predicate Covers(s: Scope, c: CaseRef) {
    && c.organization == s.organization
    && c.tenant == s.tenant
    && (s.Global? || c.caseId == s.caseId)
  }

  /** The guard's read of the store: the tenant-wide stop first, then the stop of the case. */
  predicate Stopped(stops: set<Scope>, c: CaseRef) {
    || Global(c.organization, c.tenant) in stops
    || (c.caseId != "" && Case(c.organization, c.tenant, c.caseId) in stops)
  }

  /** The guard denies a case exactly when a control would cover it for some active stop. */
  lemma GuardAgreesWithControls(stops: set<Scope>, c: CaseRef)
    requires forall s <- stops :: ValidScope(s)
    ensures Stopped(stops, c) <==> exists s <- stops :: Covers(s, c)
  {
    if Stopped(stops, c) {
      var s := if Global(c.organization, c.tenant) in stops then Global(c.organization, c.tenant)
               else Case(c.organization, c.tenant, c.caseId);
      assert Covers(s, c);
    }
    if s :| s in stops && Covers(s, c) {
      assert s == if s.Global? then Global(c.organization, c.tenant) else Case(c.organization, c.tenant, c.caseId);
    }
  }

  const NUL: char := '\0'

  function Kind(s: Scope): string {
    if s.Global? then "global" else "case"
  }

  function CaseIdOf(s: Scope): string {
    if s.Global? then "" else s.caseId
  }

  /** The stores key their state table by this text. */
  function ScopeKey(s: Scope): string {
    s.organization + [NUL] + (s.tenant + [NUL] + (Kind(s) + [NUL] + CaseIdOf(s)))
  }

  /** Distinct scopes have distinct keys, so the tables may be read as maps from scopes. */
  lemma ScopeKeyInjective(a: Scope, b: Scope)
    requires NUL !in a.organization && NUL !in a.tenant
    requires NUL !in b.organization && NUL !in b.tenant
    requires ScopeKey(a) == ScopeKey(b)
    ensures a == b
  {
    var restA := Kind(a) + [NUL] + CaseIdOf(a);
    var restB := Kind(b) + [NUL] + CaseIdOf(b);
    Delimited.FirstFieldUnique(NUL, a.organization, a.tenant + [NUL] + restA, b.organization, b.tenant + [NUL] + restB);
    Delimited.FirstFieldUnique(NUL, a.tenant, restA, b.tenant, restB);
    Delimited.FirstFieldUnique(NUL, Kind(a), CaseIdOf(a), Kind(b), CaseIdOf(b));
    assert Kind(a) == Kind(b) ==> a.Global? == b.Global? by {
      assert |Kind(a)| == (if a.Global? then 6 else 4);
      assert |Kind(b)| == (if b.Global? then 6 else 4);
    }
  }
}
