/**
  The paged export of a Query DSL plan.

  A job reads a point-in-time search page by page: each search asks for one row more than the page
  holds, rows are released until the byte limit, and the last page closes the point in time. Handles
  already served are answered from a replay table. The vendor is a fixed, strictly ordered result.
 */
module PagedExport {
  import opened Wrappers

  /** One result row with its sort tuple; the text is the row's JSON encoding. */
  datatype Hit = Hit(row: string, key: int)

  datatype Plan = Plan(maximumRows: nat, maximumPages: nat, pageRows: nat, maximumBytes: nat)

  /** `seal` gives the secret part of the handle for a page number. */
  datatype Export = Export(plan: Plan, hits: seq<Hit>, seal: nat -> string)

  datatype Handle = Handle(id: nat, secret: string)

  datatype Truncation = ByteLimit | RowLimit | PageLimit

  datatype Page = Page(number: nat, rows: seq<Hit>, next: Option<Handle>, truncated: Option<Truncation>,
                       rowsScanned: nat, rowsReturned: nat, bytesReturned: nat)

  datatype Job = Job(pit: string, closed: bool, pageNumber: nat, rowsScanned: nat, rowsReturned: nat,
                     bytesReturned: nat,
                     searchAfter: Option<int>, nextHandle: Option<Handle>,
                     firstPoll: Option<Page>, replays: map<nat, (Handle, Page)>)

  /**
    What the surroundings decide during one call: the deadline, the vendor's search (with the new
    point-in-time identifier) and close, and whether the finished page passes the contract decoder,
    which re-reads the context and the document size after the job has been updated.
   */
  datatype Env = Env(stale: bool, searched: Option<string>, closes: bool, decodes: bool)

  datatype Attempt = Refused(reason: string) | Committed(page: Page)

  ghost predicate Ordered(hits: seq<Hit>) {
    forall i, j | 0 <= i < j < |hits| :: hits[i].key < hits[j].key
  }

  predicate ValidPlan(p: Plan) {
    1 <= p.pageRows <= p.maximumRows && 1 <= p.maximumPages
  }

  function Min(a: nat, b: nat): nat {
    if a < b then a else b
  }

  /** The limits of a compiled plan; a zero limit denies the query. */
  function PlanLimits(rows: nat, hardRows: nat, pages: nat, hardPages: nat, slices: nat, hardPageRows: nat,
                      bytes: nat): (r: Option<Plan>)
    ensures r.Some? ==> ValidPlan(r.value) && r.value.maximumRows <= rows && r.value.maximumRows <= hardRows
    ensures r.Some? ==>
            r.value.maximumPages <= pages && r.value.maximumPages <= hardPages && r.value.maximumPages <= slices
    ensures r.Some? ==>
            r.value.pageRows <= r.value.maximumRows && r.value.pageRows <= hardPageRows && r.value.maximumBytes == bytes
    ensures r.Some? ==> r.value.maximumRows == rows || r.value.maximumRows == hardRows
    ensures r.Some? ==> r.value.maximumPages in {pages, hardPages, slices}
    ensures r.Some? ==> r.value.pageRows == r.value.maximumRows || r.value.pageRows == hardPageRows
    ensures r.None? <==> rows == 0 || hardRows == 0 || pages == 0 || hardPages == 0 || slices == 0 || hardPageRows == 0
  {
    var maximumRows := Min(rows, hardRows);
    var maximumPages := Min(pages, Min(hardPages, slices));
    var pageRows := Min(maximumRows, hardPageRows);
    if maximumRows == 0 || maximumPages == 0 || pageRows == 0 then None
    else Some(Plan(maximumRows, maximumPages, pageRows, bytes))
  }

  // ---------- The vendor

  /** The hits after a sort tuple. */
  function After(hits: seq<Hit>, after: Option<int>): seq<Hit> {
    if hits == [] || after.None? || after.value < hits[0].key then hits else After(hits[1..], after)
  }

  function Search(hits: seq<Hit>, after: Option<int>, size: nat): seq<Hit> {
    var rest := After(hits, after);
    rest[..Min(|rest|, size)]
  }

  /** Searching after the last row read resumes exactly there. */
  lemma {:induction false} SearchResumes(hits: seq<Hit>, n: nat)
    requires Ordered(hits) && 0 < n <= |hits|
    ensures After(hits, Some(hits[n - 1].key)) == hits[n..]
  {
    if n == 1 {
      if |hits| > 1 {
        assert hits[0].key < hits[1].key;
        assert After(hits[1..], Some(hits[0].key)) == hits[1..];
      }
    } else {
      assert hits[0].key < hits[n - 1].key;
      SearchResumes(hits[1..], n - 1);
      assert hits[1..][n - 1..] == hits[n..];
    }
  }

  // ---------- One page

  function Bytes(hits: seq<Hit>): nat {
    if hits == [] then 0 else Bytes(hits[..|hits| - 1]) + |hits[|hits| - 1].row|
  }

  lemma {:induction false} BytesAppend(a: seq<Hit>, b: seq<Hit>)
    ensures Bytes(a + b) == Bytes(a) + Bytes(b)
  {
    if b == [] {
      assert a + b == a;
    } else {
      assert (a + b)[..|a + b| - 1] == a + b[..|b| - 1];
      BytesAppend(a, b[..|b| - 1]);
    }
  }

  /** `n` is the number of leading rows that fit: all of them, or the next one would pass the limit. */
  ghost predicate Fits(hits: seq<Hit>, used: nat, limit: nat, n: nat) {
    && n <= |hits|
    && (n > 0 ==> used + Bytes(hits[..n]) <= limit)
    && (n < |hits| ==> used + Bytes(hits[..n + 1]) > limit)
  }

  lemma {:induction false} BytesMonotone(hits: seq<Hit>, a: nat, b: nat)
    requires a <= b <= |hits|
    ensures Bytes(hits[..a]) <= Bytes(hits[..b])
  {
    if a < b {
      assert hits[..b][..b - 1] == hits[..b - 1];
      BytesMonotone(hits, a, b - 1);
    }
  }

  lemma FitsUnique(hits: seq<Hit>, used: nat, limit: nat, m: nat, n: nat)
    requires Fits(hits, used, limit, m) && Fits(hits, used, limit, n)
    ensures m == n
  {
    if m < n {
      BytesMonotone(hits, m + 1, n);
    }
    if n < m {
      BytesMonotone(hits, n + 1, m);
    }
  }

  /** The number of leading rows that fit. */
  function FitCount(hits: seq<Hit>, used: nat, limit: nat): (n: nat)
    ensures Fits(hits, used, limit, n)
  {
    if hits == [] then 0
    else
      var last := |hits| - 1;
      var n := FitCount(hits[..last], used, limit);
      assert forall k | 0 <= k <= last :: hits[..last][..k] == hits[..k];
      assert hits[..|hits|] == hits;
      if n == last && used + Bytes(hits) <= limit then |hits| else n
  }

  /** The job after a search whose page releases the first `n` of the rows found. */
  function Commit(x: Export, j: Job, env: Env, found: seq<Hit>, n: nat): (Job, Attempt)
    requires env.searched.Some? && n <= |found|
  {
    var searched := j.(pit := env.searched.value);
    var left := if x.plan.maximumRows > j.rowsReturned then x.plan.maximumRows - j.rowsReturned else 0;
    var capacity := Min(x.plan.pageRows, left);
    var rows := found[..n];
    var hasMore := |found| > n;
    var nextRows, nextPage := j.rowsReturned + n, j.pageNumber + 1;
    var truncated := if n < Min(|found|, capacity) then Some(ByteLimit)
                     else if hasMore && nextRows >= x.plan.maximumRows then Some(RowLimit)
                     else if hasMore && nextPage >= x.plan.maximumPages then Some(PageLimit)
                     else None;
    var terminal := !hasMore || truncated.Some?;
    if terminal && !env.closes then (searched, Refused("elastic_pit_close_receipt_invalid"))
    else
      var next := if terminal || n == 0 then None else Some(Handle(nextPage + 1, x.seal(nextPage + 1)));
      var after := if terminal || n == 0 then j.searchAfter else Some(rows[n - 1].key);
      var bytes := j.bytesReturned + Bytes(rows);
      (searched.(pit := if terminal then "" else searched.pit, closed := terminal,
                 pageNumber := nextPage, rowsScanned := j.rowsScanned + |found|, rowsReturned := nextRows,
                 bytesReturned := bytes, searchAfter := after, nextHandle := next),
       Committed(Page(nextPage, rows, next, truncated, j.rowsScanned + |found|, nextRows, bytes)))
  }

  function Capacity(x: Export, j: Job): nat
    requires j.rowsReturned < x.plan.maximumRows
  {
    Min(x.plan.pageRows, x.plan.maximumRows - j.rowsReturned)
  }

  /** One attempt at a page. */
  function SearchPage(x: Export, j: Job, env: Env): (Job, Attempt) {
    if j.closed || j.pit == "" then (j, Refused("elastic_querydsl_job_terminal"))
    else if env.stale then (j, Refused("elastic_querydsl_query_stale"))
    else if j.rowsReturned >= x.plan.maximumRows || j.pageNumber >= x.plan.maximumPages then
      (j, Refused("elastic_querydsl_export_limit_reached"))
    else if env.searched.None? then (j, Refused("elastic_pit_search_receipt_invalid"))
    else
      var found := Search(x.hits, j.searchAfter, Capacity(x, j) + 1);
      Commit(x, j, env, found, FitCount(found[..Min(|found|, Capacity(x, j))], j.bytesReturned, x.plan.maximumBytes))
  }

  datatype Reply = Answer(page: Page) | Error(reason: string)

  /** What a call does: the job after it, the caller's reply, and the page it committed, if any. */
  datatype Outcome = Outcome(job: Job, reply: Reply, committed: Option<Page>)

  function Poll(x: Export, j: Job, bound: bool, env: Env): Outcome {
    if !bound then Outcome(j, Error("elastic_querydsl_job_mismatch"), None)
    else if j.firstPoll.Some? then Outcome(j, Answer(j.firstPoll.value), None)
    else
      var r := SearchPage(x, j, env);
      match r.1
      case Refused(reason) => Outcome(r.0, Error(reason), None)
      case Committed(page) =>
        if env.decodes then Outcome(r.0.(firstPoll := Some(page)), Answer(page), Some(page))
        else Outcome(r.0, Error("decode"), Some(page))
  }

  function NextPage(x: Export, j: Job, request: Handle, bound: bool, limited: bool, env: Env): Outcome {
    if request.id in j.replays then
      Outcome(j, if j.replays[request.id].0 == request then Answer(j.replays[request.id].1)
                 else Error("elastic_querydsl_page_handle_mismatch"), None)
    else if j.nextHandle != Some(request) || !bound then
      Outcome(j, Error("elastic_querydsl_page_handle_mismatch"), None)
    else if !limited then Outcome(j, Error("elastic_querydsl_page_limits_invalid"), None)
    else
      var r := SearchPage(x, j, env);
      match r.1
      case Refused(reason) => Outcome(r.0, Error(reason), None)
      case Committed(page) =>
        if env.decodes then Outcome(r.0.(replays := r.0.replays[request.id := (request, page)]), Answer(page),
                                    Some(page))
        else Outcome(r.0, Error("decode"), Some(page))
  }

  function Cancel(j: Job, bound: bool, closes: bool): Job {
    if bound && !j.closed && closes then j.(closed := true, pit := "") else j
  }

  function Start(pit: string): Job {
    Job(pit, false, 0, 0, 0, 0, None, None, None, map[])
  }

  /** The export job object. */
  class ExportJob {
    const x: Export
    var job: Job

    constructor (description: Export, pit: string)
      ensures x == description && job == Start(pit)
    {
      x := description;
      job := Start(pit);
    }

    /** The search, the row loop with its byte limit, and the update of the job. */
    method SearchPageLocked(env: Env) returns (a: Attempt)
      modifies this
      ensures (job, a) == SearchPage(x, old(job), env)
    {
      if job.closed || job.pit == "" {
        return Refused("elastic_querydsl_job_terminal");
      }
      if env.stale {
        return Refused("elastic_querydsl_query_stale");
      }
      if job.rowsReturned >= x.plan.maximumRows || job.pageNumber >= x.plan.maximumPages {
        return Refused("elastic_querydsl_export_limit_reached");
      }
      if env.searched.None? {
        return Refused("elastic_pit_search_receipt_invalid");
      }
      var capacity := Capacity(x, job);
      var found := Search(x.hits, job.searchAfter, capacity + 1);
      var count := RowsThatFit(found, Min(|found|, capacity));
      var r := Commit(x, job, env, found, count);
      job := r.0;
      a := r.1;
    }

    /** The row loop: how many of the first `releaseCount` hits fit the byte limit. */
    method RowsThatFit(found: seq<Hit>, releaseCount: nat) returns (count: nat)
      requires releaseCount <= |found|
      ensures count == FitCount(found[..releaseCount], job.bytesReturned, x.plan.maximumBytes)
    {
      ghost var release := found[..releaseCount];
      var rows: seq<Hit> := [];
      var pageBytes := 0;
      var cut := false;
      while |rows| < releaseCount && !cut
        invariant |rows| <= releaseCount && rows == release[..|rows|] && pageBytes == Bytes(rows)
        invariant |rows| > 0 ==> job.bytesReturned + pageBytes <= x.plan.maximumBytes
        invariant cut ==>
                  |rows| < releaseCount && job.bytesReturned + Bytes(release[..|rows| + 1]) > x.plan.maximumBytes
        decreases releaseCount - |rows|, !cut
      {
        var hit := found[|rows|];
        assert release[..|rows| + 1] == rows + [hit];
        if job.bytesReturned + pageBytes + |hit.row| > x.plan.maximumBytes {
          cut := true;
        } else {
          pageBytes := pageBytes + |hit.row|;
          rows := rows + [hit];
        }
      }
      count := |rows|;
      FitsUnique(release, job.bytesReturned, x.plan.maximumBytes, |rows|,
                 FitCount(release, job.bytesReturned, x.plan.maximumBytes));
    }

    method PollJob(bound: bool, env: Env) returns (reply: Reply)
      modifies this
      ensures job == Poll(x, old(job), bound, env).job && reply == Poll(x, old(job), bound, env).reply
    {
      if !bound {
        return Error("elastic_querydsl_job_mismatch");
      }
      if job.firstPoll.Some? {
        return Answer(job.firstPoll.value);
      }
      var a := SearchPageLocked(env);
      if a.Refused? {
        return Error(a.reason);
      }
      if !env.decodes {
        return Error("decode");
      }
      job := job.(firstPoll := Some(a.page));
      return Answer(a.page);
    }

    method NextJobPage(request: Handle, bound: bool, limited: bool, env: Env) returns (reply: Reply)
      modifies this
      ensures job == NextPage(x, old(job), request, bound, limited, env).job
      ensures reply == NextPage(x, old(job), request, bound, limited, env).reply
    {
      if request.id in job.replays {
        var replay := job.replays[request.id];
        return if replay.0 == request then Answer(replay.1) else Error("elastic_querydsl_page_handle_mismatch");
      }
      if job.nextHandle != Some(request) || !bound {
        return Error("elastic_querydsl_page_handle_mismatch");
      }
      if !limited {
        return Error("elastic_querydsl_page_limits_invalid");
      }
      var a := SearchPageLocked(env);
      if a.Refused? {
        return Error(a.reason);
      }
      if !env.decodes {
        return Error("decode");
      }
      job := job.(replays := job.replays[request.id := (request, a.page)]);
      return Answer(a.page);
    }

    /** Cancelling closes the point in time once; a failed close leaves the job as it was. */
    method CancelJob(bound: bool, closes: bool)
      modifies this
      ensures job == Cancel(old(job), bound, closes)
    {
      if bound && !job.closed && closes {
        job := job.(closed := true, pit := "");
      }
    }
  }
}
