/** What every committed page of an export holds, told by the plan and the result alone; and what each call answers. */
module PagedExportPages {
  import opened Concatenation
  import opened PagedExport
  import opened PagedExportRuns
  import opened Wrappers

  // ----- the pages

  /** The rows a page may hold after `r` rows have been returned. */
  function Room(x: Export, r: nat): nat
    requires r < x.plan.maximumRows
  {
    Min(x.plan.pageRows, x.plan.maximumRows - r)
  }

  /** After `n` rows of a page there is another within its room, and it would pass the byte limit. */
  ghost predicate BytesStop(x: Export, r: nat, n: nat)
    requires r < x.plan.maximumRows && r + n <= |x.hits|
  {
    r + n < |x.hits| && n < Room(x, r) && Bytes(x.hits[..r + n + 1]) > x.plan.maximumBytes
  }

  /** Rows are left although the row limit is reached. */
  predicate RowsStop(x: Export, rows: nat) {
    rows < |x.hits| && rows >= x.plan.maximumRows
  }

  predicate PagesStop(x: Export, rows: nat, pages: nat) {
    rows < |x.hits| && pages >= x.plan.maximumPages
  }

  /** `n` rows after the first `r` are the longest run that the room and the byte limit admit. */
  ghost predicate Longest(x: Export, r: nat, n: nat) {
    && r < x.plan.maximumRows && n <= Room(x, r) && r + n <= |x.hits|
    && (n > 0 ==> Bytes(x.hits[..r + n]) <= x.plan.maximumBytes)
    && (n < Room(x, r) && r + n < |x.hits| ==> BytesStop(x, r, n))
  }

  lemma LongestUnique(x: Export, r: nat, m: nat, n: nat)
    requires Longest(x, r, m) && Longest(x, r, n)
    ensures m == n
  {
    if m < n {
      BytesMonotone(x.hits, r + m + 1, r + n);
    } else if n < m {
      BytesMonotone(x.hits, r + n + 1, r + m);
    }
  }

  /** Page `k`, with `r` rows returned and `scanned` rows read before it, holds these rows and no others. */
  ghost predicate HoldsRows(x: Export, k: nat, r: nat, scanned: nat, p: Page) {
    var n := |p.rows|;
    && p.number == k + 1 <= x.plan.maximumPages && Longest(x, r, n) && p.rows == x.hits[r..r + n]
    && p.rowsReturned == r + n && p.bytesReturned == Bytes(x.hits[..r + n])
    && p.rowsScanned == scanned + Min(|x.hits| - r, Room(x, r) + 1)
  }

  /** And it is marked, and continued, exactly so. */
  ghost predicate MarkedExactly(x: Export, k: nat, r: nat, p: Page)
    requires r < x.plan.maximumRows && r + |p.rows| <= |x.hits|
  {
    var n := |p.rows|;
    && (p.truncated == Some(ByteLimit) <==> BytesStop(x, r, n))
    && (p.truncated == Some(RowLimit) <==> !BytesStop(x, r, n) && RowsStop(x, r + n))
    && (p.truncated == Some(PageLimit) <==>
        !BytesStop(x, r, n) && !RowsStop(x, r + n) && PagesStop(x, r + n, k + 1))
    && (p.next == if r + n < |x.hits| && p.truncated.None? then Some(HandleFor(x, k + 2)) else None)
  }

  ghost predicate PageExact(x: Export, k: nat, r: nat, scanned: nat, p: Page) {
    HoldsRows(x, k, r, scanned, p) && MarkedExactly(x, k, r, p)
  }

  function ScannedBefore(log: seq<Entry>, k: nat): nat
    requires k <= |log|
  {
    if k == 0 then 0 else log[k - 1].page.rowsScanned
  }

  ghost predicate LogExact(x: Export, log: seq<Entry>) {
    forall k: nat | k < |log| :: PageExact(x, k, |Rows(log[..k])|, ScannedBefore(log, k), log[k].page)
  }

  ghost predicate Exact(x: Export, s: System) {
    LogExact(x, s.log) && s.job.rowsScanned == ScannedBefore(s.log, |s.log|)
  }

  /** The bytes of the rows up to and past the job's position. */
  lemma BytesFrom(hits: seq<Hit>, r: nat, n: nat)
    requires r + n <= |hits|
    ensures Bytes(hits[..r + n]) == Bytes(hits[..r]) + Bytes(hits[r..r + n])
  {
    assert hits[..r + n] == hits[..r] + hits[r..r + n];
    BytesAppend(hits[..r], hits[r..r + n]);
  }

  /** The first rows of a search, and their bytes, told on the whole result. */
  lemma FoundOnResult(hits: seq<Hit>, r: nat, end: nat, found: seq<Hit>, full: nat, n: nat)
    requires r <= end <= |hits| && found == hits[r..end] && n <= full <= |found|
    ensures found[..full][..n] == found[..n] == hits[r..r + n]
    ensures Bytes(hits[..r]) + Bytes(found[..n]) == Bytes(hits[..r + n])
  {
    TakeTake(found, full, n);
    SliceTake(hits, r, end, n);
    BytesFrom(hits, r, n);
  }

  /** The rows that fit are the longest run. */
  lemma FitsAreLongest(x: Export, r: nat, end: nat, found: seq<Hit>, full: nat, n: nat)
    requires r < x.plan.maximumRows && r <= end <= |x.hits| && found == x.hits[r..end]
    requires full == Min(|found|, Room(x, r)) && end == Min(|x.hits|, r + Room(x, r) + 1)
    requires Fits(found[..full], Bytes(x.hits[..r]), x.plan.maximumBytes, n)
    ensures n <= full && Longest(x, r, n)
  {
    FoundOnResult(x.hits, r, end, found, full, n);
    if n < full {
      FoundOnResult(x.hits, r, end, found, full, n + 1);
    }
  }

  /** The first `n` of the rows found after `r` are the longest run of the result there. */
  ghost predicate RunFound(x: Export, r: nat, found: seq<Hit>, n: nat) {
    && Longest(x, r, n) && n <= |found| == Min(|x.hits| - r, Room(x, r) + 1) && found[..n] == x.hits[r..r + n]
    && Bytes(x.hits[..r]) + Bytes(found[..n]) == Bytes(x.hits[..r + n])
  }

  lemma FitsOnResult(x: Export, r: nat, end: nat, found: seq<Hit>, full: nat, n: nat)
    requires r < x.plan.maximumRows && r <= end <= |x.hits| && found == x.hits[r..end]
    requires full == Min(|found|, Room(x, r)) && end == Min(|x.hits|, r + Room(x, r) + 1)
    requires Fits(found[..full], Bytes(x.hits[..r]), x.plan.maximumBytes, n)
    ensures RunFound(x, r, found, n)
  {
    FitsAreLongest(x, r, end, found, full, n);
    FoundOnResult(x.hits, r, end, found, full, n);
  }

  lemma SearchFindsRun(x: Export, j: Job, env: Env, found: seq<Hit>, n: nat)
    requires Searchable(x, j, env, found, n) && j.bytesReturned == Bytes(x.hits[..j.rowsReturned])
    ensures RunFound(x, j.rowsReturned, found, n)
  {
    FitsOnResult(x, j.rowsReturned, Min(|x.hits|, j.rowsReturned + Capacity(x, j) + 1), found,
                 Min(|found|, Capacity(x, j)), n);
  }

  lemma CommitHolds(x: Export, j: Job, env: Env, found: seq<Hit>, n: nat)
    requires Searchable(x, j, env, found, n) && j.bytesReturned == Bytes(x.hits[..j.rowsReturned])
    requires Commit(x, j, env, found, n).1.Committed?
    ensures var p := Commit(x, j, env, found, n).1.page;
            && |p.rows| == n && HoldsRows(x, j.pageNumber, j.rowsReturned, j.rowsScanned, p)
            && Commit(x, j, env, found, n).0.rowsScanned == p.rowsScanned
  {
    SearchFindsRun(x, j, env, found, n);
  }

  lemma CommitMarks(x: Export, j: Job, env: Env, found: seq<Hit>, n: nat)
    requires Searchable(x, j, env, found, n) && j.bytesReturned == Bytes(x.hits[..j.rowsReturned])
    requires Commit(x, j, env, found, n).1.Committed?
    ensures var p := Commit(x, j, env, found, n).1.page;
            j.rowsReturned + |p.rows| <= |x.hits| && MarkedExactly(x, j.pageNumber, j.rowsReturned, p)
  {
    SearchFindsRun(x, j, env, found, n);
  }

  /** A committed attempt gives the exact next page. */
  lemma SearchExact(x: Export, s: System, env: Env)
    requires Sound(x) && Inv(x, s) && Exact(x, s) && SearchPage(x, s.job, env).1.Committed?
    ensures var page := SearchPage(x, s.job, env).1.page;
            && PageExact(x, |s.log|, |Rows(s.log)|, ScannedBefore(s.log, |s.log|), page)
            && SearchPage(x, s.job, env).0.rowsScanned == page.rowsScanned
  {
    OpenJobResumes(x, s, env);
    var found, n := SearchIsCommit(x, s.job, env);
    CommitHolds(x, s.job, env, found, n);
    CommitMarks(x, s.job, env, found, n);
  }

  lemma AppendExact(x: Export, log: seq<Entry>, e: Entry)
    requires LogExact(x, log) && PageExact(x, |log|, |Rows(log)|, ScannedBefore(log, |log|), e.page)
    ensures LogExact(x, log + [e])
  {
    var longer := log + [e];
    forall k: nat | k < |longer|
      ensures PageExact(x, k, |Rows(longer[..k])|, ScannedBefore(longer, k), longer[k].page)
    {
      assert longer[..k] == log[..k];
      if k < |log| {
        assert PageExact(x, k, |Rows(log[..k])|, ScannedBefore(log, k), log[k].page);
      } else {
        assert log[..k] == log;
      }
    }
  }

  lemma RefusedScans(x: Export, j: Job, env: Env)
    requires SearchPage(x, j, env).1.Refused?
    ensures SearchPage(x, j, env).0.rowsScanned == j.rowsScanned
  {
    RefusedKeeps(x, j, env);
  }

  lemma RecordExact(x: Export, s: System, o: Outcome, env: Env)
    requires Sound(x) && Inv(x, s) && Exact(x, s)
    requires o.committed.Some? ==>
               && SearchPage(x, s.job, env).1 == Committed(o.committed.value)
               && o.job.rowsScanned == SearchPage(x, s.job, env).0.rowsScanned
    requires o.committed.None? ==> o.job.rowsScanned == s.job.rowsScanned
    ensures Exact(x, Record(s, o))
  {
    if o.committed.Some? {
      SearchExact(x, s, env);
      AppendExact(x, s.log, Entry(o.committed.value, o.reply.Answer?));
    }
  }

  lemma NextExact(x: Export, s: System, event: Event)
    requires Sound(x) && Inv(x, s) && Exact(x, s)
    ensures Exact(x, Next(x, s, event))
  {
    match event
    case PollCall(bound, env) =>
      PollCommits(x, s.job, bound, env);
      RecordExact(x, s, Poll(x, s.job, bound, env), env);
    case PageCall(request, bound, limited, env) =>
      PageCommits(x, s.job, request, bound, limited, env);
      RecordExact(x, s, NextPage(x, s.job, request, bound, limited, env), env);
    case CancelCall(bound, closes) =>
    case Expire =>
  }

  lemma PollCommits(x: Export, j: Job, bound: bool, env: Env)
    ensures var o := Poll(x, j, bound, env);
            if o.committed.Some?
            then SearchPage(x, j, env).1 == Committed(o.committed.value)
                 && o.job.rowsScanned == SearchPage(x, j, env).0.rowsScanned
            else o.job.rowsScanned == j.rowsScanned
  {
    if SearchPage(x, j, env).1.Refused? {
      RefusedScans(x, j, env);
    }
  }

  lemma PageCommits(x: Export, j: Job, request: Handle, bound: bool, limited: bool, env: Env)
    ensures var o := NextPage(x, j, request, bound, limited, env);
            if o.committed.Some?
            then SearchPage(x, j, env).1 == Committed(o.committed.value)
                 && o.job.rowsScanned == SearchPage(x, j, env).0.rowsScanned
            else o.job.rowsScanned == j.rowsScanned
  {
    if SearchPage(x, j, env).1.Refused? {
      RefusedScans(x, j, env);
    }
  }

  lemma {:induction false} ExactOnRuns(x: Export, pit: string, events: seq<Event>)
    requires Sound(x)
    ensures Exact(x, Run(x, Begin(pit), events))
    decreases |events|
  {
    if events != [] {
      var front := events[..|events| - 1];
      ExactOnRuns(x, pit, front);
      InvOnRuns(x, pit, front);
      NextExact(x, Run(x, Begin(pit), front), events[|events| - 1]);
    }
  }

  /**
    In every run page `k` holds the longest run of the next rows that its room and the byte limit
    admit; it is marked as cut short for exactly the first limit that leaves rows behind; and it has a
    handle for the next page exactly when rows are left and it is not so marked.
   */
  lemma PagesAreExact(x: Export, pit: string, events: seq<Event>, k: nat)
    requires Sound(x) && k < |Run(x, Begin(pit), events).log|
    ensures var log := Run(x, Begin(pit), events).log;
            PageExact(x, k, |Rows(log[..k])|, ScannedBefore(log, k), log[k].page)
  {
    ExactOnRuns(x, pit, events);
  }

  /** A last page is unmarked exactly when the pages are the whole result. */
  lemma CompleteExactly(x: Export, pit: string, events: seq<Event>)
    requires Sound(x)
    ensures var log := Run(x, Begin(pit), events).log;
            log != [] && log[|log| - 1].page.next.None? ==>
              (log[|log| - 1].page.truncated.None? <==> Rows(log) == x.hits)
  {
    var s := Run(x, Begin(pit), events);
    if s.log != [] && s.log[|s.log| - 1].page.next.None? {
      ExactOnRuns(x, pit, events);
      InvOnRuns(x, pit, events);
      LastIsComplete(x, s);
    }
  }

  lemma LastIsComplete(x: Export, s: System)
    requires CountersOk(x, s) && LogExact(x, s.log) && s.log != [] && s.log[|s.log| - 1].page.next.None?
    ensures s.log[|s.log| - 1].page.truncated.None? <==> Rows(s.log) == x.hits
  {
    var k := |s.log| - 1;
    MarkTellsEnd(x, k, |Rows(s.log[..k])|, ScannedBefore(s.log, k), s.log[k].page);
    RowsAdd(s.log);
    WholeByLength(x.hits, s.job.rowsReturned);
  }

  lemma MarkTellsEnd(x: Export, k: nat, r: nat, scanned: nat, p: Page)
    requires PageExact(x, k, r, scanned, p) && p.next.None?
    ensures p.truncated.None? <==> r + |p.rows| == |x.hits|
  {
    match p.truncated
    case None =>
    case Some(ByteLimit) =>
    case Some(RowLimit) =>
    case Some(PageLimit) =>
  }

  lemma RowsAdd(log: seq<Entry>)
    requires log != []
    ensures |Rows(log)| == |Rows(log[..|log| - 1])| + |log[|log| - 1].page.rows|
  {
  }

  lemma WholeByLength(hits: seq<Hit>, n: nat)
    requires n <= |hits|
    ensures hits[..n] == hits <==> n == |hits|
  {
    if hits[..n] == hits {
      assert |hits[..n]| == n;
    }
  }

  // ----- the calls

  /** A poll answers with the page first polled, else with the page it commits; it needs the job's own binding. */
  lemma PollAnswersExactly(x: Export, j: Job, bound: bool, env: Env)
    ensures var o := Poll(x, j, bound, env);
            && (o.committed.Some? <==> bound && j.firstPoll.None? && SearchPage(x, j, env).1.Committed?)
            && (o.reply.Answer? <==>
                bound && (j.firstPoll.Some? || (SearchPage(x, j, env).1.Committed? && env.decodes)))
            && (o.reply.Answer? ==> o.job.firstPoll == Some(o.reply.page))
            && (o.reply.Answer? && j.firstPoll.Some? ==> o.job == j)
            && (!bound ==> o.job == j)
  {
    SearchKeepsReplies(x, j, env);
  }

  /** A page call answers a handle it has served, else only the current one under the job's binding and limits. */
  lemma PageAnswersExactly(x: Export, j: Job, request: Handle, bound: bool, limited: bool, env: Env)
    ensures var o := NextPage(x, j, request, bound, limited, env);
            var served := request.id in j.replays;
            && (o.committed.Some? <==>
                !served && j.nextHandle == Some(request) && bound && limited && SearchPage(x, j, env).1.Committed?)
            && (o.reply.Answer? <==>
                if served then j.replays[request.id].0 == request else o.committed.Some? && env.decodes)
            && (o.reply.Answer? ==>
                request.id in o.job.replays && o.job.replays[request.id] == (request, o.reply.page))
            && (served || j.nextHandle != Some(request) || !bound || !limited ==> o.job == j)
  {
    SearchKeepsReplies(x, j, env);
  }

  /** An attempt commits exactly when the job is open and current and the vendor answers, to the close too. */
  lemma AttemptCommitsExactly(x: Export, pit: string, events: seq<Event>, env: Env)
    requires Sound(x)
    ensures var s := Run(x, Begin(pit), events);
            SearchPage(x, s.job, env).1.Committed? <==>
            && !s.job.closed && s.job.pit != "" && !env.stale && env.searched.Some?
            && (NextIsLast(x, |Rows(s.log)|, |s.log| + 1) ==> env.closes)
  {
    var s := Run(x, Begin(pit), events);
    InvOnRuns(x, pit, events);
    if !s.job.closed && s.job.pit != "" && !env.stale && env.searched.Some? {
      OpenPosition(x, s);
      SearchCommits(x, s.job, env);
    }
  }

  lemma OpenPosition(x: Export, s: System)
    requires Inv(x, s) && !s.job.closed
    ensures Resumes(x, s.job) && s.job.rowsReturned == |Rows(s.log)| && s.job.pageNumber == |s.log|
    ensures s.job.rowsReturned < x.plan.maximumRows && s.job.pageNumber < x.plan.maximumPages
    ensures s.job.bytesReturned == Bytes(x.hits[..s.job.rowsReturned])
  {
  }

  /** The next page, whatever run of rows it will hold, will be the last. */
  ghost predicate NextIsLast(x: Export, r: nat, pages: nat) {
    exists n: nat :: Longest(x, r, n) && EndsWith(x, r, n, pages)
  }

  ghost predicate EndsWith(x: Export, r: nat, n: nat, pages: nat)
    requires r < x.plan.maximumRows && r + n <= |x.hits|
  {
    r + n == |x.hits| || BytesStop(x, r, n) || RowsStop(x, r + n) || PagesStop(x, r + n, pages)
  }

  lemma CommitUnlessLast(x: Export, j: Job, env: Env, found: seq<Hit>, n: nat)
    requires Searchable(x, j, env, found, n) && j.bytesReturned == Bytes(x.hits[..j.rowsReturned])
    ensures Longest(x, j.rowsReturned, n)
    ensures Commit(x, j, env, found, n).1.Committed? <==>
            (EndsWith(x, j.rowsReturned, n, j.pageNumber + 1) ==> env.closes)
  {
    SearchFindsRun(x, j, env, found, n);
  }

  lemma SearchCommits(x: Export, j: Job, env: Env)
    requires Sound(x) && Resumes(x, j) && j.bytesReturned == Bytes(x.hits[..j.rowsReturned])
    requires j.rowsReturned < x.plan.maximumRows && j.pageNumber < x.plan.maximumPages
    requires !j.closed && j.pit != "" && !env.stale && env.searched.Some?
    ensures SearchPage(x, j, env).1.Committed? <==> (NextIsLast(x, j.rowsReturned, j.pageNumber + 1) ==> env.closes)
  {
    var found := Search(x.hits, j.searchAfter, Capacity(x, j) + 1);
    var n := FitCount(found[..Min(|found|, Capacity(x, j))], j.bytesReturned, x.plan.maximumBytes);
    FoundSearchable(x, j, env, found, n);
    OpenCommits(x, j, env);
    CommitUnlessLast(x, j, env, found, n);
    LastByRun(x, j.rowsReturned, n, j.pageNumber + 1);
  }

  lemma FoundSearchable(x: Export, j: Job, env: Env, found: seq<Hit>, n: nat)
    requires Sound(x) && Resumes(x, j) && env.searched.Some?
    requires j.rowsReturned < x.plan.maximumRows && j.pageNumber < x.plan.maximumPages
    requires found == Search(x.hits, j.searchAfter, Capacity(x, j) + 1)
    requires n == FitCount(found[..Min(|found|, Capacity(x, j))], j.bytesReturned, x.plan.maximumBytes)
    ensures Searchable(x, j, env, found, n)
  {
    FoundIsRest(x, j, Capacity(x, j) + 1);
  }

  lemma OpenCommits(x: Export, j: Job, env: Env)
    requires j.rowsReturned < x.plan.maximumRows && j.pageNumber < x.plan.maximumPages
    requires !j.closed && j.pit != "" && !env.stale && env.searched.Some?
    ensures var found := Search(x.hits, j.searchAfter, Capacity(x, j) + 1);
            var n := FitCount(found[..Min(|found|, Capacity(x, j))], j.bytesReturned, x.plan.maximumBytes);
            SearchPage(x, j, env) == Commit(x, j, env, found, n)
  {
  }

  lemma LastByRun(x: Export, r: nat, n: nat, pages: nat)
    requires Longest(x, r, n)
    ensures NextIsLast(x, r, pages) <==> EndsWith(x, r, n, pages)
  {
    if m: nat :| Longest(x, r, m) && EndsWith(x, r, m, pages) {
      LongestUnique(x, r, m, n);
    }
  }

  // ----- the end of a job

  /** A cancel takes hold exactly when it is bound to an open job and the vendor closes; it changes nothing else. */
  lemma CancelExactly(x: Export, s: System, bound: bool, closes: bool)
    ensures var s' := Next(x, s, CancelCall(bound, closes));
            && s'.log == s.log
            && s'.job == if bound && closes && !s.job.closed then s.job.(closed := true, pit := "") else s.job
  {
  }

  /** Once a job is closed no call commits a page, and it stays closed. */
  lemma {:induction false} ClosedForever(x: Export, s: System, events: seq<Event>)
    requires s.job.closed
    ensures Run(x, s, events).job.closed && Run(x, s, events).log == s.log
    decreases |events|
  {
    if events != [] {
      ClosedForever(x, s, events[..|events| - 1]);
    }
  }
}
